/**
 internal/types/mapper.go: the walk over a type as the source makes it, with the
 structs it is inside of in a set it updates.
 */
module MapperWalk {
  import opened Wrappers
  import opened Text
  import opened Shapes
  import opened TypeText
  import opened Mapper

  lemma GroupFirst(cs: seq<Candidate>, name: string)
    requires cs != []
    ensures Group(cs, name) == (if cs[0].field.name == name then [cs[0]] else []) + Group(cs[1..], name)
  {
  }

  lemma {:induction false} GroupAppend(cs: seq<Candidate>, c: Candidate, name: string)
    ensures Group(cs + [c], name) == Group(cs, name) + if c.field.name == name then [c] else []
  {
    if cs == [] {
      assert cs + [c] == [c];
      assert Group([c], name) == (if c.field.name == name then [c] else []) + Group([], name);
    } else {
      assert (cs + [c])[1..] == cs[1..] + [c];
      GroupAppend(cs[1..], c, name);
      GroupFirst(cs + [c], name);
      GroupFirst(cs, name);
      hide Group;
      var head, last := (if cs[0].field.name == name then [cs[0]] else []), (if c.field.name == name then [c] else []);
      assert head + (Group(cs[1..], name) + last) == head + Group(cs[1..], name) + last;
    }
  }

  method GroupByName(cs: seq<Candidate>) returns (byName: map<string, seq<Candidate>>)
    ensures forall n :: n in byName <==> Group(cs, n) != []
    ensures forall n :: n in byName ==> byName[n] == Group(cs, n)
  {
    byName := map[];
    assert cs[..0] == [];
    for i := 0 to |cs|
      invariant forall n :: n in byName <==> Group(cs[..i], n) != []
      invariant forall n :: n in byName ==> byName[n] == Group(cs[..i], n)
    {
      var name := cs[i].field.name;
      assert cs[..i + 1] == cs[..i] + [cs[i]];
      forall n: string
        ensures Group(cs[..i + 1], n) == Group(cs[..i], n) + if cs[i].field.name == n then [cs[i]] else []
      {
        hide Group;
        GroupAppend(cs[..i], cs[i], n);
      }
      hide Group;
      byName := byName[name := (if name in byName then byName[name] else []) + [cs[i]]];
    }
    assert cs[..|cs|] == cs;
  }

  /** A name's winner is kept, and everything kept won its name. */
  lemma WinnerKept(cs: seq<Candidate>, name: string, f: Field)
    requires Group(cs, name) != []
    ensures f.name == name ==> (IsKept(cs, f) <==> exists c :: PickField(Group(cs, name)) == Some(c) && c.field == f)
  {
    hide PickField, Wins, Group;
    if f.name == name {
      if IsKept(cs, f) {
        var c :| c in cs && c.field == f && Wins(multiset(Group(cs, f.name)), c);
        PickFieldIff(Group(cs, name), c);
      }
      if exists c :: PickField(Group(cs, name)) == Some(c) && c.field == f {
        var c :| PickField(Group(cs, name)) == Some(c) && c.field == f;
        PickFieldIff(Group(cs, name), c);
        WinnerIn(Group(cs, name), c);
        GroupHolds(cs, name, c);
      }
    }
  }

  lemma WinnerIn(group: seq<Candidate>, c: Candidate)
    requires Wins(multiset(group), c)
    ensures c in group
  {
    assert c in multiset(group);
  }

  lemma WinnerNamed(cs: seq<Candidate>, name: string, c: Candidate)
    requires Group(cs, name) != [] && PickField(Group(cs, name)) == Some(c)
    ensures c.field.name == name
  {
    PickFieldIff(Group(cs, name), c);
    WinnerIn(Group(cs, name), c);
    GroupHolds(cs, name, c);
  }

  lemma KeptHasGroup(cs: seq<Candidate>, f: Field)
    requires IsKept(cs, f)
    ensures Group(cs, f.name) != []
  {
    var c :| c in cs && c.field == f && Wins(multiset(Group(cs, f.name)), c);
    GroupHolds(cs, f.name, c);
  }

  /** What one group adds to the fields. */
  lemma KeptStep(cs: seq<Candidate>, name: string, f: Field)
    requires Group(cs, name) != []
    ensures PickField(Group(cs, name)).Some? ==> PickField(Group(cs, name)).value.field.name == name
    ensures f.name == name && IsKept(cs, f) <==>
      PickField(Group(cs, name)).Some? && f == PickField(Group(cs, name)).value.field
  {
    hide PickField, Group, IsKept;
    var picked := PickField(Group(cs, name));
    WinnerKept(cs, name, f);
    if picked.Some? { WinnerNamed(cs, name, picked.value); }
  }

  /** The loop over the groups, in the order a map gives them: any order. */
  method PickAll(cs: seq<Candidate>) returns (out: seq<Field>)
    ensures forall f :: f in out <==> IsKept(cs, f)
  {
    var byName := GroupByName(cs);
    out := [];
    var left := byName.Keys;
    forall f | IsKept(cs, f) ensures f.name in left { KeptHasGroup(cs, f); }
    hide IsKept, Group, PickField;
    while left != {}
      invariant left <= byName.Keys
      invariant forall f :: f in out <==> IsKept(cs, f) && f.name !in left
      invariant forall f :: IsKept(cs, f) ==> f.name in byName
    {
      var name :| name in left;
      left := left - {name};
      forall f: Field
        ensures f.name == name && IsKept(cs, f) <==>
          PickField(byName[name]).Some? && f == PickField(byName[name]).value.field
      {
        KeptStep(cs, name, f);
      }
      var winner := PickField(byName[name]);
      if winner.Some? {
        out := out + [winner.value.field];
      }
    }
  }

  /** Writes one member after what was written before. */
  method WriteMember(before: string, f: Field) returns (out: string)
    ensures out == before + MemberText(f)
  {
    out := before + f.name;
    if f.optional { out := out + "?"; }
    out := out + ": ";
    out := out + f.ts;
    assert out == before + (f.name + (if f.optional then "?: " else ": ") + f.ts);
  }

  method PrintObject(shape: seq<Field>) returns (out: string)
    ensures out == ObjectLiteral(shape)
  {
    hide MemberText;
    if shape == [] { return "{}"; }
    out := "{ ";
    assert shape[0..] == shape;
    for i := 0 to |shape|
      invariant out + (if 0 < i < |shape| then "; " else "") + MemberList(shape[i..]) == "{ " + MemberList(shape)
    {
      assert shape[i..][1..] == shape[i + 1..];
      if i > 0 { out := out + "; "; }
      assert out + MemberList(shape[i..]) == "{ " + MemberList(shape);
      assert MemberList(shape[i..])
          == MemberText(shape[i]) + ((if i + 1 < |shape| then "; " else "") + MemberList(shape[i + 1..]));
      out := WriteMember(out, shape[i]);
    }
    out := out + " }";
  }

  method PrintArray(elem: string) returns (ts: string)
    ensures ts == ArrayOf(elem)
  {
    var union := ScanTopLevelUnion(elem);
    return if union then "(" + elem + ")[]" else elem + "[]";
  }

  /** A walk over a type, with the structs it is inside of. */
  class Walk {
    const world: World
    var seen: set<string>

    constructor (w: World)
      ensures world == w && seen == {}
    {
      world, seen := w, {};
    }

    method PrintType(t: GoType, depth: nat) returns (ts: string)
      modifies this
      ensures seen == old(seen) && ts == TsType(world, t, depth, seen)
      decreases Unseen(world, seen), 3, t
    {
      match t {
        case Time => ts := "string";
        case JsonNumber => ts := "number";
        case Raw => ts := "unknown";
        case Pointer(elem) =>
          var inner := PrintType(elem, depth);
          ts := OrNull(inner);
        case Bool => ts := "boolean";
        case Integer => ts := "number";
        case Uint8 => ts := "number";
        case Uintptr => ts := "number";
        case Float => ts := "number";
        case String => ts := "string";
        case Slice(elem) =>
          if elem.Uint8? {
            ts := "string";
          } else {
            var inner := PrintType(elem, depth);
            ts := PrintArray(inner);
          }
        case Array(elem) =>
          var inner := PrintType(elem, depth);
          ts := PrintArray(inner);
        case Map(key, elem) =>
          if !IsStringKind(key) && !IsIntegerKind(key) {
            ts := "unknown";
          } else {
            var inner := PrintType(elem, depth);
            ts := "Record<string, " + inner + ">";
          }
        case Struct(id) =>
          if depth > world.maxDepth || id in seen {
            ts := "unknown";
          } else {
            var fields := FieldsOf(id, depth);
            ts := PrintObject(NewShape(fields));
          }
        case Interface => ts := "unknown";
        case Opaque => ts := "unknown";
      }
    }

    method FieldsOf(id: string, depth: nat) returns (out: seq<Field>)
      modifies this
      ensures seen == old(seen)
      ensures forall f :: f in out <==> f in StructFields(world, id, depth, seen)
      ensures NewShape(out) == NewShape(StructFields(world, id, depth, seen))
      decreases Unseen(world, seen), 1
    {
      if depth > world.maxDepth || id in seen || id !in world.structs {
        return [];
      }
      ghost var outside := seen;
      Entering(world, id, seen);
      seen := seen + {id};
      var candidates := CollectInto(world.structs[id], depth, 0, []);
      seen := seen - {id};
      assert seen == outside;
      assert [] + Candidates(world, id, depth, seen) == Candidates(world, id, depth, seen);
      out := PickAll(candidates);
      forall f ensures f in Picked(candidates) <==> IsKept(candidates, f) { PickedHolds(candidates, f); }
      SameKeptSameShape(candidates, out, Picked(candidates));
    }

    method CollectInto(fields: seq<StructField>, depth: nat, embedDepth: nat, found: seq<Candidate>)
      returns (out: seq<Candidate>)
      modifies this
      ensures seen == old(seen)
      ensures out == found + Collect(world, fields, depth, embedDepth, seen)
      decreases Unseen(world, seen), 6
    {
      hide CollectField, Unseen;
      out := found;
      assert fields[0..] == fields;
      for i := 0 to |fields|
        invariant seen == old(seen)
        invariant out + Collect(world, fields[i..], depth, embedDepth, seen)
               == found + Collect(world, fields, depth, embedDepth, seen)
      {
        assert fields[i..][1..] == fields[i + 1..];
        out := CollectOne(fields[i], depth, embedDepth, out);
      }
      assert out + [] == out;
    }

    /** The body of the loop over the fields. */
    method CollectOne(sf: StructField, depth: nat, embedDepth: nat, found: seq<Candidate>)
      returns (out: seq<Candidate>)
      modifies this
      ensures seen == old(seen)
      ensures out == found + CollectField(world, sf, depth, embedDepth, seen)
      decreases Unseen(world, seen), 5
    {
      hide Collect, FieldType, IsStructKind;
      out := found;
      if sf.tag.ignored { return; }
      var ft := if sf.ty.Pointer? then sf.ty.elem else sf.ty;
      if sf.anonymous {
        if !sf.exported && !IsStructKind(ft) { return; }
      } else if !sf.exported {
        return;
      }
      if IsStructKind(ft) && ((sf.anonymous && !sf.tag.hasName) || sf.tag.embed) {
        if !ft.Struct? || ft.id !in world.structs || ft.id in seen { return; }
        ghost var outside := seen;
        Entering(world, ft.id, seen);
        seen := seen + {ft.id};
        out := CollectInto(world.structs[ft.id], depth, embedDepth + 1, out);
        seen := seen - {ft.id};
        assert seen == outside;
        return;
      }
      var name := sf.tag.name;
      if name == "" { name := sf.name; }
      var ts, optional := PrintFieldType(sf.ty, sf.tag, depth + 1);
      out := out + [Candidate(Field(name, ts, optional), embedDepth, sf.tag.hasName)];
    }

    method PrintFieldType(t: GoType, tag: Tag, depth: nat) returns (ts: string, optional: bool)
      modifies this
      ensures seen == old(seen)
      ensures (ts, optional) == FieldType(world, t, tag, depth, seen)
      decreases Unseen(world, seen), 4
    {
      hide TsType, CanEncodeEmpty;
      ts := PrintType(t, depth);
      optional := tag.omitZero;
      if !optional && tag.omitEmpty { optional := MayEncodeEmpty(t, depth); }
      if optional { ts := TrimSuffix(ts, " | null"); }
    }

    method MayEncodeEmpty(t: GoType, depth: nat) returns (yes: bool)
      modifies this
      ensures seen == old(seen)
      ensures yes == CanEncodeEmpty(world, t, depth, seen)
      decreases Unseen(world, seen), 2
    {
      hide StructFields;
      if t.Struct? {
        var fields := FieldsOf(t.id, depth);
        for i := 0 to |fields|
          invariant seen == old(seen)
          invariant forall k :: 0 <= k < i ==> fields[k].optional
        {
          if !fields[i].optional { return false; }
        }
        return true;
      }
      return t.Raw? || t.String? || t.Slice? || t.Array? || t.Map? || t.Pointer? || t.Interface?;
    }
  }
}

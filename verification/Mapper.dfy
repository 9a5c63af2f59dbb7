/**
 internal/types/mapper.go: the TypeScript text of a Go type.

 Struct types are named and may refer to themselves; the walk is bounded by a
 depth and by the set of structs it is inside of.
 */
module Mapper {
  import opened Wrappers
  import opened Text
  import opened Shapes
  import opened TypeText

  /** The kinds reflection tells apart, and the four types it is asked about by identity. */
  datatype GoType =
    | Time | JsonNumber | Raw
    | Bool | Uint8 | Integer | Uintptr | Float | String
    | Pointer(elem: GoType) | Slice(elem: GoType) | Array(elem: GoType)
    | Map(key: GoType, elem: GoType)
    | Struct(id: string)
    | Interface | Opaque

  /** A parsed `json` tag. */
  datatype Tag = Tag(name: string, hasName: bool, ignored: bool, omitEmpty: bool, omitZero: bool, embed: bool)

  datatype StructField = StructField(name: string, exported: bool, anonymous: bool, ty: GoType, tag: Tag)

  datatype World = World(structs: map<string, seq<StructField>>, maxDepth: nat)

  /** One candidate produced while flattening embedded structs. */
  datatype Candidate = Candidate(field: Field, depth: nat, tagged: bool)

  // -------------------------------------------------------------- choosing a field

  function Group(cs: seq<Candidate>, name: string): (g: seq<Candidate>) {
    if cs == [] then []
    else (if cs[0].field.name == name then [cs[0]] else []) + Group(cs[1..], name)
  }

  function AtDepth(cs: seq<Candidate>, depth: nat): seq<Candidate> {
    if cs == [] then []
    else (if cs[0].depth == depth then [cs[0]] else []) + AtDepth(cs[1..], depth)
  }

  function Tagged(cs: seq<Candidate>): seq<Candidate> {
    if cs == [] then []
    else (if cs[0].tagged then [cs[0]] else []) + Tagged(cs[1..])
  }

  function Shallowest(cs: seq<Candidate>): (depth: nat)
    requires cs != []
    ensures exists c :: c in cs && c.depth == depth
    ensures forall c :: c in cs ==> depth <= c.depth
  {
    if |cs| == 1 then cs[0].depth
    else
      var rest := Shallowest(cs[1..]);
      assert cs == [cs[0]] + cs[1..];
      if cs[0].depth < rest then cs[0].depth else rest
  }

  function PickField(group: seq<Candidate>): Option<Candidate>
    requires group != []
  {
    if |group| == 1 then Some(group[0])
    else
      var shallow := AtDepth(group, Shallowest(group));
      if |shallow| == 1 then Some(shallow[0])
      else
        var tagged := Tagged(shallow);
        if |tagged| == 1 then Some(tagged[0]) else None
  }

  /** Every other candidate is deeper. */
  predicate UniquelyShallowest(group: multiset<Candidate>, c: Candidate) {
    c in group && forall o :: o in group - multiset{c} ==> c.depth < o.depth
  }

  /** No other is shallower, and of those as shallow c alone is named by a tag. */
  predicate UniquelyTagged(group: multiset<Candidate>, c: Candidate) {
    c in group && c.tagged &&
    forall o :: o in group - multiset{c} ==> c.depth < o.depth || (c.depth == o.depth && !o.tagged)
  }

  predicate Wins(group: multiset<Candidate>, c: Candidate) {
    UniquelyShallowest(group, c) || UniquelyTagged(group, c)
  }

  // Filters, as multisets.

  lemma {:induction false} GroupCounts(cs: seq<Candidate>, name: string, c: Candidate)
    ensures multiset(Group(cs, name))[c] == if c.field.name == name then multiset(cs)[c] else 0
  {
    if cs != [] {
      GroupCounts(cs[1..], name, c);
      assert cs == [cs[0]] + cs[1..];
    }
  }

  lemma {:induction false} AtDepthCounts(cs: seq<Candidate>, depth: nat, c: Candidate)
    ensures multiset(AtDepth(cs, depth))[c] == if c.depth == depth then multiset(cs)[c] else 0
  {
    if cs != [] {
      AtDepthCounts(cs[1..], depth, c);
      assert cs == [cs[0]] + cs[1..];
    }
  }

  lemma {:induction false} TaggedCounts(cs: seq<Candidate>, c: Candidate)
    ensures multiset(Tagged(cs))[c] == if c.tagged then multiset(cs)[c] else 0
  {
    if cs != [] {
      TaggedCounts(cs[1..], c);
      assert cs == [cs[0]] + cs[1..];
    }
  }

  // What the choice means.

  /** What is at the least depth, among candidates none of which is shallower. */
  ghost predicate IsLevel(all: multiset<Candidate>, depth: nat, level: multiset<Candidate>) {
    && (forall c :: c in all ==> depth <= c.depth)
    && (forall c :: level[c] == if c.depth == depth then all[c] else 0)
  }

  lemma SingleLevel(all: multiset<Candidate>, depth: nat, level: multiset<Candidate>, c: Candidate)
    requires IsLevel(all, depth, level) && level == multiset{c}
    ensures UniquelyShallowest(all, c)
  {
    assert level[c] == 1;
    forall o | o in all - multiset{c} ensures c.depth < o.depth {
      assert level[o] == multiset{c}[o];
    }
  }

  lemma LevelSingle(all: multiset<Candidate>, depth: nat, level: multiset<Candidate>, c: Candidate)
    requires IsLevel(all, depth, level) && level != multiset{} && UniquelyShallowest(all, c)
    ensures level == multiset{c}
  {
    var o :| o in level;
    assert o == c || o in all - multiset{c};
    forall x: Candidate | x != c ensures level[x] == 0 {
      if x in all { assert x in all - multiset{c}; }
    }
    assert all[c] > 1 ==> c in all - multiset{c};
  }

  lemma TaggedOf(level: multiset<Candidate>, tagged: multiset<Candidate>, c: Candidate)
    requires forall x :: tagged[x] == if x.tagged then level[x] else 0
    ensures tagged == multiset{c} <==> c in level && c.tagged && forall o :: o in level - multiset{c} ==> !o.tagged
  {
    if tagged == multiset{c} {
      assert tagged[c] == 1;
      forall o | o in level - multiset{c} ensures !o.tagged {
        assert tagged[o] == multiset{c}[o];
      }
    }
    if c in level && c.tagged && forall o :: o in level - multiset{c} ==> !o.tagged {
      assert forall x: Candidate :: x != c && x in level ==> x in level - multiset{c};
      assert level[c] > 1 ==> c in level - multiset{c};
      assert tagged == multiset{c};
    }
  }

  lemma LevelTagged(all: multiset<Candidate>, depth: nat, level: multiset<Candidate>, c: Candidate)
    requires IsLevel(all, depth, level) && level != multiset{}
    ensures UniquelyTagged(all, c) <==>
      c in level && c.tagged && forall o :: o in level - multiset{c} ==> !o.tagged
  {
    if c in level && c.tagged && forall o :: o in level - multiset{c} ==> !o.tagged {
      forall o | o in all - multiset{c} ensures c.depth < o.depth || (c.depth == o.depth && !o.tagged) {
        if o.depth == depth { assert level[o] == all[o]; }
      }
    }
    if UniquelyTagged(all, c) {
      var low :| low in level;
      assert low == c || low in all - multiset{c};
      forall o | o in level - multiset{c} ensures !o.tagged {
        assert level[o] == all[o];
      }
    }
  }

  lemma LevelOf(group: seq<Candidate>) returns (depth: nat, shallow: seq<Candidate>)
    requires group != []
    ensures depth == Shallowest(group) && shallow == AtDepth(group, depth)
    ensures IsLevel(multiset(group), depth, multiset(shallow)) && multiset(shallow) != multiset{}
  {
    depth := Shallowest(group);
    shallow := AtDepth(group, depth);
    forall c: Candidate
      ensures multiset(shallow)[c] == if c.depth == depth then multiset(group)[c] else 0
    {
      AtDepthCounts(group, depth, c);
    }
    var least :| least in group && least.depth == depth;
    assert least in multiset(group) && least in multiset(shallow);
  }

  /** Exactly c is left at the least depth when every other candidate is deeper. */
  lemma ShallowIs(group: seq<Candidate>, c: Candidate)
    requires group != []
    ensures AtDepth(group, Shallowest(group)) == [c] <==> UniquelyShallowest(multiset(group), c)
  {
    hide UniquelyShallowest, IsLevel, AtDepth, Shallowest;
    var depth, shallow := LevelOf(group);
    if multiset(shallow) == multiset{c} {
      SingleLevel(multiset(group), depth, multiset(shallow), c);
    } else if UniquelyShallowest(multiset(group), c) {
      LevelSingle(multiset(group), depth, multiset(shallow), c);
    }
  }

  /** Among several at the least depth, exactly c is tagged. */
  lemma TaggedIs(group: seq<Candidate>, c: Candidate)
    requires group != []
    ensures Tagged(AtDepth(group, Shallowest(group))) == [c] <==> UniquelyTagged(multiset(group), c)
  {
    hide UniquelyTagged, IsLevel, AtDepth, Shallowest, Tagged;
    var depth, shallow := LevelOf(group);
    var tagged := Tagged(shallow);
    forall x: Candidate ensures multiset(tagged)[x] == if x.tagged then multiset(shallow)[x] else 0 {
      TaggedCounts(shallow, x);
    }
    TaggedOf(multiset(shallow), multiset(tagged), c);
    LevelTagged(multiset(group), depth, multiset(shallow), c);
  }

  /** A name is given to c exactly when c is uniquely shallowest, or uniquely tagged among the shallowest. */
  lemma PickFieldIff(group: seq<Candidate>, c: Candidate)
    requires group != []
    ensures PickField(group) == Some(c) <==> Wins(multiset(group), c)
  {
    ShallowIs(group, c);
    TaggedIs(group, c);
    var shallow := AtDepth(group, Shallowest(group));
    if |shallow| == 1 {
      assert shallow == [shallow[0]];
      ShallowIs(group, shallow[0]);
      if Tagged(shallow) == [c] { assert c in shallow; }
    }
    if |group| == 1 {
      assert group == [group[0]];
      assert UniquelyShallowest(multiset(group), group[0]);
      ShallowIs(group, group[0]);
    }
    if |Tagged(shallow)| == 1 {
      assert Tagged(shallow) == [Tagged(shallow)[0]];
    }
  }

  // ---------------------------------------------------------- flattening a struct

  function PickedFrom(cs: seq<Candidate>, all: seq<Candidate>): seq<Field> {
    if cs == [] then []
    else
      var group := Group(all, cs[0].field.name);
      (if group != [] && PickField(group) == Some(cs[0]) then [cs[0].field] else []) + PickedFrom(cs[1..], all)
  }

  /** The fields the candidates leave, one for each name that has a winner. */
  function Picked(cs: seq<Candidate>): seq<Field> {
    PickedFrom(cs, cs)
  }

  /** A field is kept when some candidate carrying it wins its name. */
  predicate IsKept(cs: seq<Candidate>, f: Field) {
    exists c :: c in cs && c.field == f && Wins(multiset(Group(cs, f.name)), c)
  }

  lemma {:induction false} GroupHolds(cs: seq<Candidate>, name: string, c: Candidate)
    ensures c in Group(cs, name) <==> c in cs && c.field.name == name
  {
    GroupCounts(cs, name, c);
    assert c in Group(cs, name) <==> multiset(Group(cs, name))[c] > 0;
    assert c in cs <==> multiset(cs)[c] > 0;
  }

  lemma PickedFromCons(cs: seq<Candidate>, all: seq<Candidate>, f: Field)
    requires cs != [] && cs[0] in all
    ensures f in PickedFrom(cs, all) <==>
      (cs[0].field == f && Wins(multiset(Group(all, f.name)), cs[0])) || f in PickedFrom(cs[1..], all)
  {
    GroupHolds(all, cs[0].field.name, cs[0]);
    PickFieldIff(Group(all, cs[0].field.name), cs[0]);
    hide Wins, PickField, Group;
  }

  predicate HasWinner(cs: seq<Candidate>, all: seq<Candidate>, f: Field) {
    exists c :: c in cs && c.field == f && Wins(multiset(Group(all, f.name)), c)
  }

  lemma {:induction false} PickedFromHolds(cs: seq<Candidate>, all: seq<Candidate>, f: Field)
    requires forall i :: 0 <= i < |cs| ==> cs[i] in all
    ensures f in PickedFrom(cs, all) <==> HasWinner(cs, all, f)
  {
    if cs == [] {
    } else {
      hide HasWinner, PickedFrom, Wins, Group;
      PickedFromHolds(cs[1..], all, f);
      PickedFromCons(cs, all, f);
    }
  }

  lemma PickedHolds(cs: seq<Candidate>, f: Field)
    ensures f in Picked(cs) <==> IsKept(cs, f)
  {
    PickedFromHolds(cs, cs, f);
  }

  /** Whatever order the fields kept come in, they make one shape. */
  lemma KeptShape(cs: seq<Candidate>, fields: seq<Field>, f: Field)
    requires forall g :: g in fields <==> IsKept(cs, g)
    ensures f in NewShape(fields) <==> IsKept(cs, f)
  {
    NewShapeNames(fields);
    if IsKept(cs, f) {
      assert f.name in Names(fields);
      var g :| g in NewShape(fields) && g.name == f.name;
    }
  }

  lemma SameKeptSameShape(cs: seq<Candidate>, a: seq<Field>, b: seq<Field>)
    requires forall g :: g in a <==> IsKept(cs, g)
    requires forall g :: g in b <==> IsKept(cs, g)
    ensures NewShape(a) == NewShape(b)
  {
    NewShapeKeepsFirst(a, "");
    NewShapeKeepsFirst(b, "");
    forall f ensures f in NewShape(a) <==> f in NewShape(b) {
      KeptShape(cs, a, f);
      KeptShape(cs, b, f);
    }
    ShapesAgree(NewShape(a), NewShape(b));
  }

  /** The shape of a flattened struct. */
  function ShapeOf(cs: seq<Candidate>): seq<Field> {
    NewShape(Picked(cs))
  }

  /**
   A member is in the shape exactly when a candidate wins it, and candidates in
   any other order make the same shape.
   */
  lemma FlatteningIff(cs: seq<Candidate>, f: Field)
    ensures f in ShapeOf(cs) <==> IsKept(cs, f)
  {
    forall g ensures g in Picked(cs) <==> IsKept(cs, g) { PickedHolds(cs, g); }
    KeptShape(cs, Picked(cs), f);
  }

  lemma FlatteningIgnoresOrder(a: seq<Candidate>, b: seq<Candidate>)
    requires multiset(a) == multiset(b)
    ensures ShapeOf(a) == ShapeOf(b)
  {
    forall g ensures g in Picked(a) <==> IsKept(a, g) { PickedHolds(a, g); }
    forall g ensures g in Picked(b) <==> IsKept(a, g) {
      PickedHolds(b, g);
      forall c: Candidate ensures multiset(Group(a, g.name))[c] == multiset(Group(b, g.name))[c] {
        GroupCounts(a, g.name, c);
        GroupCounts(b, g.name, c);
      }
      assert multiset(Group(a, g.name)) == multiset(Group(b, g.name));
      assert forall c :: c in a <==> c in multiset(a);
      assert forall c :: c in b <==> c in multiset(b);
      assert IsKept(a, g) <==> IsKept(b, g);
    }
    SameKeptSameShape(a, Picked(a), Picked(b));
  }

  // ------------------------------------------------------------------ the type text

  function OrNull(ts: string): string {
    if HasSuffix(ts, " | null") then ts else ts + " | null"
  }

  function ArrayOf(elem: string): string {
    if HasTopLevelUnion(elem) then "(" + elem + ")[]" else elem + "[]"
  }

  function MemberText(f: Field): string {
    f.name + (if f.optional then "?: " else ": ") + f.ts
  }

  function MemberList(fields: seq<Field>): string {
    if fields == [] then ""
    else if |fields| == 1 then MemberText(fields[0])
    else MemberText(fields[0]) + "; " + MemberList(fields[1..])
  }

  function ObjectLiteral(shape: seq<Field>): string {
    if shape == [] then "{}" else "{ " + MemberList(shape) + " }"
  }

  predicate IsStructKind(t: GoType) {
    t.Struct? || t.Time?
  }

  predicate IsStringKind(t: GoType) {
    t.String? || t.JsonNumber?
  }

  predicate IsIntegerKind(t: GoType) {
    t.Integer? || t.Uint8?
  }

  function Deref(t: GoType): GoType {
    if t.Pointer? then t.elem else t
  }

  /** Fields JSON leaves out: told to, or not reachable. */
  predicate IsSkipped(sf: StructField) {
    sf.tag.ignored || (!sf.exported && (!sf.anonymous || !IsStructKind(Deref(sf.ty))))
  }

  /** Fields whose own fields take their place. */
  predicate IsFlattened(sf: StructField) {
    IsStructKind(Deref(sf.ty)) && ((sf.anonymous && !sf.tag.hasName) || sf.tag.embed)
  }

  function JsonName(sf: StructField): string {
    if sf.tag.name == "" then sf.name else sf.tag.name
  }

  /** The structs a walk can still enter. */
  function Unseen(w: World, seen: set<string>): nat {
    |w.structs.Keys - seen|
  }

  lemma Entering(w: World, id: string, seen: set<string>)
    requires id in w.structs && id !in seen
    ensures Unseen(w, seen + {id}) < Unseen(w, seen)
  {
    assert w.structs.Keys - (seen + {id}) == (w.structs.Keys - seen) - {id};
  }

  function TsType(w: World, t: GoType, depth: nat, seen: set<string>): string
    decreases Unseen(w, seen), 3, t
  {
    match t
    case Time | String => "string"
    case JsonNumber | Uint8 | Integer | Uintptr | Float => "number"
    case Bool => "boolean"
    case Pointer(elem) => OrNull(TsType(w, elem, depth, seen))
    case Slice(elem) => if elem.Uint8? then "string" else ArrayOf(TsType(w, elem, depth, seen))
    case Array(elem) => ArrayOf(TsType(w, elem, depth, seen))
    case Map(key, elem) =>
      if !IsStringKind(key) && !IsIntegerKind(key) then "unknown"
      else "Record<string, " + TsType(w, elem, depth, seen) + ">"
    case Struct(id) =>
      if depth > w.maxDepth || id in seen then "unknown"
      else ObjectLiteral(NewShape(StructFields(w, id, depth, seen)))
    case Raw | Interface | Opaque => "unknown"
  }

  /** The candidates of one field of a struct. */
  function CollectField(w: World, sf: StructField, depth: nat, embedDepth: nat, seen: set<string>): seq<Candidate>
    decreases Unseen(w, seen), 5
  {
    if IsSkipped(sf) then []
    else if IsFlattened(sf) then
      var ft := Deref(sf.ty);
      if ft.Struct? && ft.id in w.structs && ft.id !in seen then
        Entering(w, ft.id, seen);
        Collect(w, w.structs[ft.id], depth, embedDepth + 1, seen + {ft.id})
      else []
    else
      var (ts, optional) := FieldType(w, sf.ty, sf.tag, depth + 1, seen);
      [Candidate(Field(JsonName(sf), ts, optional), embedDepth, sf.tag.hasName)]
  }

  function Collect(w: World, fields: seq<StructField>, depth: nat, embedDepth: nat, seen: set<string>): seq<Candidate>
    decreases Unseen(w, seen), 6, |fields|
  {
    if fields == [] then []
    else CollectField(w, fields[0], depth, embedDepth, seen) + Collect(w, fields[1..], depth, embedDepth, seen)
  }

  function FieldType(w: World, t: GoType, tag: Tag, depth: nat, seen: set<string>): (string, bool)
    decreases Unseen(w, seen), 4
  {
    var ts := TsType(w, t, depth, seen);
    if tag.omitZero || (tag.omitEmpty && CanEncodeEmpty(w, t, depth, seen)) then (TrimSuffix(ts, " | null"), true)
    else (ts, false)
  }

  predicate AllOptional(fields: seq<Field>) {
    forall f :: f in fields ==> f.optional
  }

  predicate CanEncodeEmpty(w: World, t: GoType, depth: nat, seen: set<string>)
    decreases Unseen(w, seen), 2
  {
    match t
    case Raw | String | Slice(_) | Array(_) | Map(_, _) | Pointer(_) | Interface => true
    case Struct(id) => AllOptional(StructFields(w, id, depth, seen))
    case _ => false
  }

  function Candidates(w: World, id: string, depth: nat, seen: set<string>): seq<Candidate>
    requires id in w.structs && id !in seen
    decreases Unseen(w, seen), 0
  {
    Entering(w, id, seen);
    Collect(w, w.structs[id], depth, 0, seen + {id})
  }

  /** The JSON fields of a struct, in one of the orders the loop over a map can give them. */
  function StructFields(w: World, id: string, depth: nat, seen: set<string>): seq<Field>
    decreases Unseen(w, seen), 1
  {
    if depth > w.maxDepth || id in seen || id !in w.structs then []
    else Picked(Candidates(w, id, depth, seen))
  }
}

/**
 What internal/types/mapper.go says about Go values, checked against how they are
 encoded: which JSON a printed type admits, which keys may be absent, and which
 fields there are.
 */
module PropTypes {
  import opened Wrappers
  import opened Text
  import opened Shapes
  import opened TypeText
  import opened Mapper
  import opened PrinterScanner

  // ---------------------------------------------------------------- what a type says

  /** What JSON a type is of. An object's members are told by its text. */
  datatype Reading =
    | Anything | Texts | Numbers | Booleans
    | OrNone(reading: Reading)
    | ListsOf(reading: Reading)
    | RecordsOf(reading: Reading)
    | Objects(text: string)

  function Nullable(r: Reading): Reading {
    if r.OrNone? then r else OrNone(r)
  }

  /** What a Go value is encoded as: bytes in a slice as one text, a map by its keys if JSON can have them. */
  function Encoded(w: World, t: GoType, depth: nat, seen: set<string>): Reading
    decreases t
  {
    match t
    case Time | String => Texts
    case JsonNumber | Uint8 | Integer | Uintptr | Float => Numbers
    case Bool => Booleans
    case Pointer(elem) => Nullable(Encoded(w, elem, depth, seen))
    case Slice(elem) => if elem == Uint8 then Texts else ListsOf(Encoded(w, elem, depth, seen))
    case Array(elem) => ListsOf(Encoded(w, elem, depth, seen))
    case Map(key, elem) =>
      if key in {String, JsonNumber, Integer, Uint8} then RecordsOf(Encoded(w, elem, depth, seen)) else Anything
    case Struct(id) =>
      if w.maxDepth < depth || id in seen then Anything else Objects(ObjectLiteral(NewShape(StructFields(w, id, depth, seen))))
    case Raw | Interface | Opaque => Anything
  }

  /** Ends in this, and is not only this. */
  predicate EndsIn(ts: string, end: string) {
    |ts| > |end| && ts[|ts| - |end|..] == end
  }

  /**
   A TypeScript type read from its end. Brackets bind closer than a bar: an element
   that may be null has parentheses around it.
   */
  function Read(ts: string): Option<Reading>
    decreases |ts|
  {
    if EndsIn(ts, " | null") then Mapped(Read(ts[..|ts| - 7]), r => Nullable(r))
    else if EndsIn(ts, "[]") then
      var elem := ts[..|ts| - 2];
      if EndsIn(elem, ")") then
        if elem[0] == '(' then Mapped(Read(elem[1..|elem| - 1]), r => ListsOf(r)) else None
      else if EndsIn(elem, " | null") then None
      else Mapped(Read(elem), r => ListsOf(r))
    else if |ts| > 15 && "Record<string, " <= ts && EndsIn(ts, ">") then Mapped(Read(ts[15..|ts| - 1]), r => RecordsOf(r))
    else if EndsIn(ts, "}") then if ts[0] == '{' then Some(Objects(ts)) else None
    else if ts == "unknown" then Some(Anything)
    else if ts == "string" then Some(Texts)
    else if ts == "number" then Some(Numbers)
    else if ts == "boolean" then Some(Booleans)
    else None
  }

  function Mapped(r: Option<Reading>, f: Reading -> Reading): Option<Reading> {
    match r
    case None => None
    case Some(reading) => Some(f(reading))
  }

  /** The last character tells the endings apart. */
  lemma EndIs(ts: string, end: string)
    requires EndsIn(ts, end) && end != ""
    ensures ts[|ts| - 1] == end[|end| - 1]
  {
    assert ts[|ts| - |end|..][|end| - 1] == ts[|ts| - 1];
  }

  lemma EndsAre(ts: string)
    ensures EndsIn(ts, " | null") ==> ts[|ts| - 1] == 'l'
    ensures EndsIn(ts, "[]") ==> ts[|ts| - 1] == ']'
    ensures EndsIn(ts, ")") ==> ts[|ts| - 1] == ')'
    ensures EndsIn(ts, ">") ==> ts[|ts| - 1] == '>'
    ensures EndsIn(ts, "}") ==> ts[|ts| - 1] == '}'
  {
    hide EndsIn;
    if EndsIn(ts, " | null") { EndIs(ts, " | null"); }
    if EndsIn(ts, "[]") { EndIs(ts, "[]"); }
    if EndsIn(ts, ")") { EndIs(ts, ")"); }
    if EndsIn(ts, ">") { EndIs(ts, ">"); }
    if EndsIn(ts, "}") { EndIs(ts, "}"); }
  }

  lemma NullReads(ts: string)
    requires ts != ""
    ensures Read(ts + " | null") == Mapped(Read(ts), r => Nullable(r))
  {
    assert (ts + " | null")[..|ts|] == ts && (ts + " | null")[|ts|..] == " | null";
  }

  lemma PlainArrayReads(elem: string)
    requires elem != "" && !EndsIn(elem, ")") && !EndsIn(elem, " | null")
    ensures Read(elem + "[]") == Mapped(Read(elem), r => ListsOf(r))
  {
    assert (elem + "[]")[..|elem|] == elem && (elem + "[]")[|elem|..] == "[]";
    EndsAre(elem + "[]");
    hide EndsIn;
    assert EndsIn(elem + "[]", "[]") by { ItEndsIn(elem, "[]"); }
  }

  lemma ItEndsIn(ts: string, end: string)
    requires ts != ""
    ensures EndsIn(ts + end, end)
  {
  }

  lemma WrappedArrayReads(elem: string)
    requires elem != ""
    ensures Read("(" + elem + ")[]") == Mapped(Read(elem), r => ListsOf(r))
  {
    var wrapped := "(" + elem + ")";
    var ts := wrapped + "[]";
    assert ts == "(" + elem + ")[]" && ts[..|wrapped|] == wrapped && wrapped[1..|wrapped| - 1] == elem;
    EndsAre(ts);
    EndsAre(wrapped);
    ItEndsIn(wrapped, "[]");
    ItEndsIn("(" + elem, ")");
    hide EndsIn;
  }

  lemma RecordReads(elem: string)
    ensures Read("Record<string, " + elem + ">") == Mapped(Read(elem), r => RecordsOf(r))
  {
    var ts := "Record<string, " + elem + ">";
    assert ts[15..|ts| - 1] == elem && "Record<string, " <= ts;
    EndsAre(ts);
    ItEndsIn("Record<string, " + elem, ">");
    hide EndsIn;
  }

  lemma ObjectReads(shape: seq<Field>)
    ensures Read(ObjectLiteral(shape)) == Some(Objects(ObjectLiteral(shape))) && EndsIn(ObjectLiteral(shape), "}")
  {
    hide MemberList, EndsIn;
    var ts := ObjectLiteral(shape);
    assert ts[0] == '{' && ts == ts[..|ts| - 1] + "}";
    EndsAre(ts);
    ItEndsIn(ts[..|ts| - 1], "}");
  }

  lemma WordReads(word: string)
    requires word == "string" || word == "number" || word == "boolean" || word == "unknown"
    ensures Read(word) ==
      Some(if word == "string" then Texts else if word == "number" then Numbers else if word == "boolean" then Booleans
           else Anything)
    ensures !EndsIn(word, ")") && !EndsIn(word, " | null")
  {
    EndsAre(word);
    hide EndsIn;
  }

  lemma OrNullReads(ts: string)
    requires Read(ts).Some?
    ensures Read(OrNull(ts)) == Some(Nullable(Read(ts).value))
  {
    if HasSuffix(ts, " | null") {
      EndsAre(ts);
      assert ts != " | null" ==> EndsIn(ts, " | null");
    } else {
      NullReads(ts);
    }
  }

  lemma ArrayReads(elem: string, nullable: bool)
    requires Read(elem).Some? && (HasTopLevelUnion(elem) <==> nullable)
    requires !nullable ==> !EndsIn(elem, ")") && !EndsIn(elem, " | null")
    ensures Read(ArrayOf(elem)) == Some(ListsOf(Read(elem).value))
    ensures !EndsIn(ArrayOf(elem), ")") && !EndsIn(ArrayOf(elem), " | null")
  {
    hide HasTopLevelUnion;
    if nullable { WrappedArrayReads(elem); } else { PlainArrayReads(elem); }
    var ts := ArrayOf(elem);
    assert ts[|ts| - 1] == ']';
    EndsAre(ts);
    hide EndsIn;
  }

  lemma RecordEnds(elem: string)
    ensures !EndsIn("Record<string, " + elem + ">", ")") && !EndsIn("Record<string, " + elem + ">", " | null")
  {
    EndsAre("Record<string, " + elem + ">");
    hide EndsIn;
  }

  lemma ObjectEnds(shape: seq<Field>)
    ensures !EndsIn(ObjectLiteral(shape), ")") && !EndsIn(ObjectLiteral(shape), " | null")
  {
    hide MemberList;
    EndsAre(ObjectLiteral(shape));
    hide EndsIn;
  }

  /** What is printed for a Go type says of its values exactly what they are encoded as. */
  lemma {:induction false} TextReads(w: World, t: GoType, depth: nat, seen: set<string>)
    requires NamesRead(w, false)
    ensures var ts := TsType(w, t, depth, seen);
      && Read(ts) == Some(Encoded(w, t, depth, seen))
      && (!t.Pointer? ==> !EndsIn(ts, ")") && !EndsIn(ts, " | null"))
    decreases t, 0
  {
    hide Read, EndsIn, ArrayOf, OrNull, ObjectLiteral, StructFields, NamesRead, HasTopLevelUnion;
    match t
    case Pointer(elem) =>
      TextReads(w, elem, depth, seen);
      OrNullReads(TsType(w, elem, depth, seen));
    case Slice(elem) =>
      if elem.Uint8? { WordReads("string"); } else { ElementsRead(w, elem, depth, seen); }
    case Array(elem) => ElementsRead(w, elem, depth, seen);
    case Map(key, elem) =>
      WordReads("unknown");
      TextReads(w, elem, depth, seen);
      RecordReads(TsType(w, elem, depth, seen));
      RecordEnds(TsType(w, elem, depth, seen));
    case Struct(id) =>
      WordReads("unknown");
      ObjectReads(NewShape(StructFields(w, id, depth, seen)));
      ObjectEnds(NewShape(StructFields(w, id, depth, seen)));
    case Bool => WordReads("boolean");
    case Time | String => WordReads("string");
    case Raw | Interface | Opaque => WordReads("unknown");
    case _ => WordReads("number");
  }

  lemma ElementsRead(w: World, elem: GoType, depth: nat, seen: set<string>)
    requires NamesRead(w, false)
    ensures var ts := ArrayOf(TsType(w, elem, depth, seen));
      && Read(ts) == Some(ListsOf(Encoded(w, elem, depth, seen)))
      && !EndsIn(ts, ")") && !EndsIn(ts, " | null")
    decreases elem, 1
  {
    hide TsType, Read, EndsIn, ArrayOf, NamesRead;
    TextReads(w, elem, depth, seen);
    TypesAreBalanced(w, elem, depth, seen, false);
    ArrayReads(TsType(w, elem, depth, seen), elem.Pointer?);
  }

  // --------------------------------------------------------------------- keys

  /**
   A key may be absent exactly when its tag says `omitzero`, or says `omitempty` of a
   type that can encode to nothing: texts, lists, maps, pointers, interfaces and raw
   JSON can, and a struct all of whose members may be absent; numbers, booleans and
   times cannot.
   */
  lemma OptionalIff(w: World, t: GoType, tag: Tag, depth: nat, seen: set<string>)
    ensures FieldType(w, t, tag, depth, seen).1 <==>
      tag.omitZero ||
      (tag.omitEmpty &&
        ((t.String? || t.Slice? || t.Array? || t.Map? || t.Pointer? || t.Interface? || t.Raw?) ||
         (t.Struct? && forall f :: f in NewShape(StructFields(w, t.id, depth, seen)) ==> f.optional)))
  {
    hide TsType, StructFields;
    if t.Struct? {
      FieldsAreOneEach(w, t.id, depth, seen);
      ShapeIsOptional(StructFields(w, t.id, depth, seen));
    }
  }

  lemma FieldsAreOneEach(w: World, id: string, depth: nat, seen: set<string>)
    ensures AreOneEach(StructFields(w, id, depth, seen))
  {
    hide Collect, Picked, Wins, Group, PickField;
    if !(depth > w.maxDepth || id in seen || id !in w.structs) {
      var cs := Candidates(w, id, depth, seen);
      forall f, g | f in Picked(cs) && g in Picked(cs) && f.name == g.name ensures f == g {
        PickedHolds(cs, f);
        PickedHolds(cs, g);
        var c :| c in cs && c.field == f && Wins(multiset(Group(cs, f.name)), c);
        var d :| d in cs && d.field == g && Wins(multiset(Group(cs, f.name)), d);
        GroupHolds(cs, f.name, c);
        PickFieldIff(Group(cs, f.name), c);
        PickFieldIff(Group(cs, f.name), d);
      }
    }
  }

  lemma ShapeIsOptional(fields: seq<Field>)
    requires AreOneEach(fields)
    ensures AllOptional(fields) <==> forall f :: f in NewShape(fields) ==> f.optional
  {
    NewShapeNames(fields);
    if forall f :: f in NewShape(fields) ==> f.optional {
      forall f | f in fields ensures f.optional {
        assert f.name in Names(NewShape(fields));
        var g :| g in NewShape(fields) && g.name == f.name;
      }
    }
  }

  /** No two fields of one name. */
  predicate AreOneEach(fields: seq<Field>) {
    forall f, g :: f in fields && g in fields && f.name == g.name ==> f == g
  }

  /** A member says it may be absent between its name and its type. */
  lemma OptionalIsMarked(f: Field)
    ensures var text := MemberText(f);
      && |text| > |f.name| && text[..|f.name|] == f.name && (text[|f.name|] == '?' <==> f.optional)
      && text[|f.name|..] == (if f.optional then "?: " else ": ") + f.ts
  {
    var mark := if f.optional then "?: " else ": ";
    assert f.name + mark + f.ts == f.name + (mark + f.ts);
  }

  lemma EndsInSeparator(first: string, b: string)
    requires b == "" || HasSuffix(b, "; ")
    ensures HasSuffix(first + "; " + b, "; ")
  {
    var all := first + "; " + b;
    if b == "" { assert all == first + "; "; } else { assert all[|all| - 2..] == b[|b| - 2..]; }
  }

  /** Each member of an object stands in its place among the others, told apart by a separator. */
  lemma {:induction false} MembersStand(fields: seq<Field>, i: nat) returns (before: string, after: string)
    requires i < |fields|
    ensures MemberList(fields) == before + MemberText(fields[i]) + after
    ensures if i == 0 then before == "" else HasSuffix(before, "; ")
    ensures if i == |fields| - 1 then after == "" else "; " <= after
  {
    hide MemberText, HasSuffix;
    var first, rest := MemberText(fields[0]), MemberList(fields[1..]);
    if |fields| == 1 {
      before, after := "", "";
      assert "" + first + "" == first;
    } else if i == 0 {
      before, after := "", "; " + rest;
      assert "" + first + ("; " + rest) == first + "; " + rest;
    } else {
      var b, a := MembersStand(fields[1..], i - 1);
      hide MemberList;
      before, after := first + "; " + b, a;
      var text := MemberText(fields[i]);
      assert first + "; " + (b + text + a) == (first + "; " + b) + text + a;
      EndsInSeparator(first, b);
    }
  }

  // ------------------------------------------------------------------- fields

  /** A struct of this name, or a pointer to one. */
  predicate IsStructOf(t: GoType, id: string) {
    t == Struct(id) || t == Pointer(Struct(id))
  }

  /** A struct, or a pointer to one; a time is one too. */
  predicate IsStructLike(t: GoType) {
    t == Time || t == Pointer(Time) || t.Struct? || (t.Pointer? && t.elem.Struct?)
  }

  /** What an exported field of no struct type gives: itself, under its JSON name, tagged or not. */
  lemma PlainFieldIsOne(w: World, sf: StructField, depth: nat, embedDepth: nat, seen: set<string>)
    requires !sf.tag.ignored && sf.exported
    requires !IsStructLike(sf.ty)
    ensures var (ts, optional) := FieldType(w, sf.ty, sf.tag, depth + 1, seen);
      var name := if sf.tag.name != "" then sf.tag.name else sf.name;
      CollectField(w, sf, depth, embedDepth, seen) == [Candidate(Field(name, ts, optional), embedDepth, sf.tag.hasName)]
  {
    hide FieldType;
  }

  /** A struct stands for itself unless it is embedded: anonymous with no name of its own, or told to be. */
  lemma StructFieldIsOneIff(w: World, sf: StructField, id: string, depth: nat, embedDepth: nat, seen: set<string>)
    requires !sf.tag.ignored && (sf.exported || sf.anonymous)
    requires IsStructOf(sf.ty, id) && id in w.structs && id !in seen
    ensures var (ts, optional) := FieldType(w, sf.ty, sf.tag, depth + 1, seen);
      var name := if sf.tag.name != "" then sf.tag.name else sf.name;
      CollectField(w, sf, depth, embedDepth, seen) ==
        if sf.tag.embed || (sf.anonymous && !sf.tag.hasName) then
          Collect(w, w.structs[id], depth, embedDepth + 1, seen + {id})
        else [Candidate(Field(name, ts, optional), embedDepth, sf.tag.hasName)]
  {
    hide FieldType, Collect;
  }

  /** Told to be left out, or not reachable: nothing. */
  lemma HiddenFieldIsNone(w: World, sf: StructField, depth: nat, embedDepth: nat, seen: set<string>)
    requires sf.tag.ignored ||
      (!sf.exported && (!sf.anonymous || !IsStructLike(sf.ty)))
    ensures CollectField(w, sf, depth, embedDepth, seen) == []
  {
  }

  /** Embedded again inside itself, or of no known struct: nothing either. */
  lemma EmbeddedTwiceIsNone(w: World, sf: StructField, id: string, depth: nat, embedDepth: nat, seen: set<string>)
    requires (sf.anonymous && !sf.tag.hasName) || sf.tag.embed
    requires sf.ty == Time || sf.ty == Pointer(Time) || (IsStructOf(sf.ty, id) && (id in seen || id !in w.structs))
    ensures CollectField(w, sf, depth, embedDepth, seen) == []
  {
  }
}

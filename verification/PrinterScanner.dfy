/**
 The mapper prints and shape.go reads: what the two make of each other's text.
 */
module PrinterScanner {
  import opened Text
  import opened Canonical
  import opened CanonicalForms
  import opened Shapes
  import opened Assignability
  import opened TypeText
  import opened TypeScan
  import opened Mapper

  /**
   A text that can stand in a printed type: no string or comment is open at its end,
   and its brackets end where they began, with no bar lower than the floor, whether
   comments count or not. A tidy one closes no bracket it has not opened.
   */
  predicate IsPart(x: string, floor: int, tidy: bool) {
    IsClosed(x) && IsEven(Bones(x), floor, true, tidy) && IsEven(Bones(Kept(x)), floor, false, false)
  }

  predicate IsTypeText(ts: string, floor: int, tidy: bool) {
    IsPart(ts, floor, tidy) && ts != "" && IsEnd(ts[|ts| - 1])
  }

  /** A union at the top exactly when null was added, and then of nothing else. */
  predicate IsPrintedType(ts: string, nullable: bool, tidy: bool) {
    if nullable then
      HasSuffix(ts, " | null") && IsTypeText(TrimSuffix(ts, " | null"), -1, tidy)
    else
      IsTypeText(ts, -1, tidy)
  }

  /** A JSON name the scanners read through: its own brackets end where they began, its bars not below. */
  predicate NameReads(name: string, tidy: bool) {
    IsPart(name, 0, tidy)
  }

  predicate FieldReads(sf: StructField, tidy: bool) {
    IsSkipped(sf) || IsFlattened(sf) || NameReads(JsonName(sf), tidy)
  }

  predicate FieldsRead(fields: seq<StructField>, tidy: bool) {
    fields == [] || (FieldReads(fields[0], tidy) && FieldsRead(fields[1..], tidy))
  }

  /** All JSON names of a world are such names. */
  predicate NamesRead(w: World, tidy: bool) {
    forall id :: id in w.structs ==> FieldsRead(w.structs[id], tidy)
  }

  predicate IsGoodField(f: Field, tidy: bool) {
    NameReads(f.name, tidy) && IsTypeText(f.ts, 0, tidy)
  }

  predicate AreGoodFields(fields: seq<Field>, tidy: bool) {
    forall f :: f in fields ==> IsGoodField(f, tidy)
  }

  predicate AreGoodCandidates(cs: seq<Candidate>, tidy: bool) {
    forall c :: c in cs ==> IsGoodField(c.field, tidy)
  }

  // ---------------------------------------------------------------- putting parts together

  lemma PartAppend(a: string, b: string, floor: int, tidy: bool)
    requires IsPart(a, floor, tidy) && IsPart(b, floor, tidy) && Joins(a, b)
    ensures IsPart(a + b, floor, tidy)
  {
    hide IsEven, IsClosed;
    KeptAppend(a, b);
    BonesAppend(a, b);
    BonesAppend(Kept(a), Kept(b));
    EvenAppend(Bones(a), Bones(b), floor, true, tidy);
    EvenAppend(Bones(Kept(a)), Bones(Kept(b)), floor, false, false);
  }

  /** Nothing the scanners look at, and nothing that opens a string or a comment. */
  predicate IsSilent(x: string) {
    forall c :: c in x ==> !IsQuote(c) && c != '/' && !IsBone(c)
  }

  lemma SilentIsPart(x: string, floor: int, tidy: bool)
    requires IsSilent(x)
    ensures IsPart(x, floor, tidy)
  {
    BareIsClosed(x);
    NoBones(x);
    EvenNothing(floor, true, tidy);
    EvenNothing(floor, false, false);
  }

  /** An identifier is a name the scanners read through, and a tidy one. */
  lemma IdentifierReads(name: string)
    requires forall c :: c in name ==> IsWord(c)
    ensures NameReads(name, true)
  {
    SilentIsPart(name, 0, true);
  }

  lemma PartLower(x: string, tidy: bool)
    requires IsPart(x, -1, tidy)
    ensures IsPart(x, 0, tidy) && !HasTopLevelUnion(x) && !Bars(Kept(x), 0, false)
  {
    EvenLower(Bones(x), true, tidy);
    EvenLower(Bones(Kept(x)), false, false);
    BonesCount(x, 0, true);
    BonesCount(Kept(x), 0, false);
  }

  lemma PartGlued(a: string, g: string, b: string, floor: int, tidy: bool)
    requires IsPart(a, floor, tidy) && IsPart(b, floor, tidy)
    requires IsSilent(g) && g != "" && g[0] != '*'
    ensures IsPart(a + g + b, floor, tidy)
  {
    assert g[0] in g && g[|g| - 1] in g;
    SilentIsPart(g, floor, tidy);
    hide IsPart;
    PartAppend(a, g, floor, tidy);
    assert (a + g)[|a + g| - 1] == g[|g| - 1];
    PartAppend(a + g, b, floor, tidy);
  }

  lemma BracketIsBare(c: char)
    requires IsBone(c)
    ensures IsClosed([c]) && Bones(Kept([c])) == [c] == Bones([c])
  {
    BareIsClosed([c]);
    assert [c][1..] == "";
  }

  lemma PartWrapped(open: char, x: string, close: char, tidy: bool)
    requires ArePair(open, close) && IsPart(x, 0, tidy)
    ensures IsPart([open] + x + [close], -1, tidy)
  {
    BracketIsBare(open);
    BracketIsBare(close);
    hide IsEven, IsClosed;
    KeptAppend([open], x);
    KeptAppend([open] + x, [close]);
    BonesAppend([open], x);
    BonesAppend([open] + x, [close]);
    BonesAppend(Kept([open]), Kept(x));
    BonesAppend(Kept([open]) + Kept(x), Kept([close]));
    EvenWrapped(open, Bones(x), close, true, tidy);
    EvenWrapped(open, Bones(Kept(x)), close, false, false);
  }

  // ------------------------------------------------------------------ printing

  lemma NullBones()
    ensures Bones(" | null") == "|"
  {
    NoBones(" ");
    NoBones(" null");
    assert "|"[1..] == "";
    assert Bones("|") == "|";
    hide Bones;
    BonesAppend("|", " null");
    BonesAppend(" ", "|" + " null");
    assert " " + ("|" + " null") == " | null";
  }

  lemma BarNull()
    ensures IsClosed(" | null") && Bones(Kept(" | null")) == "|" && Bones(" | null") == "|"
  {
    NullBones();
    hide Bones, IsClosed, Kept;
    BareIsClosed(" | null");
  }

  /** With null added a text is still one, and a union now. */
  lemma NullableIsText(base: string, tidy: bool)
    requires IsTypeText(base, -1, tidy)
    ensures IsTypeText(base + " | null", 0, tidy) && HasTopLevelUnion(base + " | null")
  {
    PartLower(base, tidy);
    PartNull(base, tidy);
    LastIs(base, " | null");
  }

  lemma PartNull(base: string, tidy: bool)
    requires IsPart(base, 0, tidy)
    ensures IsPart(base + " | null", 0, tidy) && HasTopLevelUnion(base + " | null")
  {
    BarNull();
    hide IsClosed, Kept, Bones, IsEven, Bars;
    KeptAppend(base, " | null");
    BonesAppend(base, " | null");
    BonesAppend(Kept(base), Kept(" | null"));
    EvenBar(Bones(base), true, tidy);
    EvenBar(Bones(Kept(base)), false, false);
    BonesCount(base + " | null", 0, true);
  }

  lemma TrimNull(text: string)
    ensures HasSuffix(text + " | null", " | null") && TrimSuffix(text + " | null", " | null") == text
  {
    assert (text + " | null")[..|text|] == text;
    assert (text + " | null")[|text|..] == " | null";
  }

  /** What is no union does not end in null. */
  lemma PrintedNot(ts: string, tidy: bool)
    requires IsTypeText(ts, -1, tidy)
    ensures !HasSuffix(ts, " | null") && TrimSuffix(ts, " | null") == ts
  {
    if HasSuffix(ts, " | null") {
      var base := ts[..|ts| - |" | null"|];
      assert ts == base + " | null";
      NullBones();
      BonesAppend(base, " | null");
      hide IsClosed, Kept, Bones;
      BarIsNotFlat(Bones(base), tidy);
    }
  }

  lemma BarIsNotFlat(x: string, tidy: bool)
    ensures !IsEven(x + "|", -1, true, tidy)
  {
    assert "|"[1..] == "";
    NetAppend(x, "|");
    BarsAppend(x, "|", -1, true);
  }

  lemma OrNullPrints(ts: string, nullable: bool, tidy: bool)
    requires IsPrintedType(ts, nullable, tidy)
    ensures IsPrintedType(OrNull(ts), true, tidy)
    ensures TrimSuffix(OrNull(ts), " | null") == TrimSuffix(ts, " | null")
  {
    hide IsTypeText;
    if !nullable {
      PrintedNot(ts, tidy);
      TrimNull(ts);
    }
  }

  lemma SuffixSplits(s: string, suffix: string)
    requires HasSuffix(s, suffix)
    ensures s == TrimSuffix(s, suffix) + suffix
  {
  }

  lemma PrintedIsText(ts: string, nullable: bool, tidy: bool)
    requires IsPrintedType(ts, nullable, tidy)
    ensures IsTypeText(ts, 0, tidy) && (HasTopLevelUnion(ts) <==> nullable)
    ensures IsPart(ts, if nullable then 0 else -1, tidy)
  {
    hide HasTopLevelUnion, IsPart, HasSuffix, TrimSuffix;
    if nullable {
      SuffixSplits(ts, " | null");
      NullableIsText(TrimSuffix(ts, " | null"), tidy);
    } else {
      PartLower(ts, tidy);
    }
  }

  lemma BracketsArePart(tidy: bool)
    ensures IsPart("[]", -1, tidy)
  {
    SilentIsPart("", 0, tidy);
    PartWrapped('[', "", ']', tidy);
    assert ['['] + "" + [']'] == "[]";
  }

  lemma LastIs(a: string, b: string)
    requires b != ""
    ensures a + b != "" && (a + b)[|a + b| - 1] == b[|b| - 1]
  {
  }

  lemma PartIsText(a: string, b: string, tidy: bool)
    requires IsPart(a + b, -1, tidy) && b != "" && IsEnd(b[|b| - 1])
    ensures IsPrintedType(a + b, false, tidy)
  {
    hide IsPart;
    LastIs(a, b);
  }

  lemma ParenthesizedIsPart(elem: string, tidy: bool)
    requires IsPart(elem, 0, tidy)
    ensures IsPart("(" + elem + ")[]", -1, tidy)
  {
    hide IsPart;
    BracketsArePart(tidy);
    PartWrapped('(', elem, ')', tidy);
    var inner := ['('] + elem + [')'];
    PartAppend(inner, "[]", -1, tidy);
    assert inner + "[]" == "(" + elem + ")[]";
  }

  lemma ArrayIsPart(elem: string, tidy: bool)
    requires IsPart(elem, -1, tidy)
    ensures IsPart(elem + "[]", -1, tidy)
  {
    hide IsPart;
    BracketsArePart(tidy);
    PartAppend(elem, "[]", -1, tidy);
  }

  lemma ArrayOfPrints(elem: string, nullable: bool, tidy: bool)
    requires IsPrintedType(elem, nullable, tidy)
    ensures IsPrintedType(ArrayOf(elem), false, tidy)
    ensures ArrayOf(elem) == if nullable then "(" + elem + ")[]" else elem + "[]"
  {
    hide IsPart, HasTopLevelUnion, IsPrintedType, IsTypeText;
    PrintedIsText(elem, nullable, tidy);
    if nullable {
      ParenthesizedIsPart(elem, tidy);
      PartIsText("(" + elem, ")[]", tidy);
    } else {
      ArrayIsPart(elem, tidy);
      PartIsText(elem, "[]", tidy);
    }
  }

  lemma RecordPrints(elem: string, tidy: bool)
    requires IsPart(elem, 0, tidy)
    ensures IsPrintedType("Record<string, " + elem + ">", false, tidy)
  {
    hide IsPart;
    WordIsPart("Record", tidy);
    NothingIsPart(tidy);
    SilentGlue("string, ");
    PartGlued("", "string, ", elem, 0, tidy);
    var inner := "" + "string, " + elem;
    PartWrapped('<', inner, '>', tidy);
    PartAppend("Record", ['<'] + inner + ['>'], -1, tidy);
    RecordText(elem);
    PartIsText("Record<string, " + elem, ">", tidy);
  }

  lemma RecordText(elem: string)
    ensures "Record" + (['<'] + ("" + "string, " + elem) + ['>']) == "Record<string, " + elem + ">"
  {
    assert "Record" + (['<'] + "string, ") == "Record<string, ";
    assert "" + "string, " + elem == "string, " + elem;
  }

  lemma WordIsPart(word: string, tidy: bool)
    requires forall c :: c in word ==> IsWord(c)
    ensures IsPart(word, -1, tidy)
  {
    SilentIsPart(word, -1, tidy);
  }

  lemma NothingIsPart(tidy: bool)
    ensures IsPart("", 0, tidy)
  {
    SilentIsPart("", 0, tidy);
  }

  /** What stands between the parts of a printed type. */
  lemma SilentGlue(g: string)
    requires g == ": " || g == "?: " || g == "; " || g == " " || g == "string, "
    ensures IsSilent(g) && g != "" && g[0] != '*'
  {
  }

  lemma GoodFieldParts(f: Field, tidy: bool)
    requires IsGoodField(f, tidy)
    ensures IsPart(f.name, 0, tidy) && IsPart(f.ts, 0, tidy)
  {
  }

  lemma {:induction false} MembersPrint(fields: seq<Field>, tidy: bool)
    requires fields != [] && AreGoodFields(fields, tidy)
    ensures IsPart(MemberList(fields), 0, tidy)
  {
    hide IsPart, IsSilent, IsTypeText, IsGoodField;
    var f := fields[0];
    assert f in fields;
    var glue := if f.optional then "?: " else ": ";
    GoodFieldParts(f, tidy);
    SilentGlue(glue);
    PartGlued(f.name, glue, f.ts, 0, tidy);
    if |fields| > 1 {
      MembersPrint(fields[1..], tidy);
      SilentGlue("; ");
      PartGlued(f.name + glue + f.ts, "; ", MemberList(fields[1..]), 0, tidy);
    }
  }

  lemma BracesPrint(list: string, tidy: bool)
    requires IsPart(list, 0, tidy)
    ensures IsPrintedType("{ " + list + " }", false, tidy)
  {
    hide IsPart, IsSilent;
    NothingIsPart(tidy);
    SilentGlue(" ");
    PartGlued("", " ", list, 0, tidy);
    PartGlued("" + " " + list, " ", "", 0, tidy);
    var inner := ("" + " " + list) + " " + "";
    PartWrapped('{', inner, '}', tidy);
    assert ['{'] + inner + ['}'] == "{ " + list + " }";
    PartIsText("{ " + list, " }", tidy);
  }

  lemma ObjectPrints(shape: seq<Field>, tidy: bool)
    requires AreGoodFields(shape, tidy)
    ensures IsPrintedType(ObjectLiteral(shape), false, tidy)
  {
    if shape == [] {
      hide IsPart, AreGoodFields;
      NothingIsPart(tidy);
      PartWrapped('{', "", '}', tidy);
      assert ['{'] + "" + ['}'] == "{" + "}" == "{}";
      PartIsText("{", "}", tidy);
    } else {
      hide IsPart, AreGoodFields, MemberList;
      MembersPrint(shape, tidy);
      BracesPrint(MemberList(shape), tidy);
    }
  }

  lemma PickedAreGood(cs: seq<Candidate>, tidy: bool)
    requires AreGoodCandidates(cs, tidy)
    ensures AreGoodFields(Picked(cs), tidy) && AreGoodFields(NewShape(Picked(cs)), tidy)
  {
    hide IsGoodField, Picked, Wins, Group;
    forall f | f in Picked(cs) ensures IsGoodField(f, tidy) {
      PickedHolds(cs, f);
    }
    NewShapeHolds(Picked(cs));
  }

  lemma NewShapeHolds(fields: seq<Field>)
    ensures forall f :: f in NewShape(fields) ==> f in fields
  {
    NewShapeNames(fields);
  }

  lemma WordPrints(word: string, tidy: bool)
    requires word != "" && forall c :: c in word ==> IsWord(c)
    ensures IsPrintedType(word, false, tidy)
  {
    assert word[|word| - 1] in word;
    SilentIsPart(word, -1, tidy);
  }

  lemma WordsPrint(tidy: bool)
    ensures IsPrintedType("string", false, tidy) && IsPrintedType("number", false, tidy)
    ensures IsPrintedType("boolean", false, tidy) && IsPrintedType("unknown", false, tidy)
  {
    hide IsPrintedType;
    WordPrints("string", tidy);
    WordPrints("number", tidy);
    WordPrints("boolean", tidy);
    WordPrints("unknown", tidy);
  }

  /** Every type's text is one, with null at its end exactly for a pointer. */
  lemma {:induction false} TsTypePrints(w: World, t: GoType, depth: nat, seen: set<string>, tidy: bool)
    requires NamesRead(w, tidy)
    ensures IsPrintedType(TsType(w, t, depth, seen), t.Pointer?, tidy)
    decreases Unseen(w, seen), 3, t
  {
    hide IsPrintedType, NamesRead, AreGoodFields, OrNull, ArrayOf, ObjectLiteral, Unseen, StructFields;
    WordsPrint(tidy);
    match t
    case Pointer(elem) =>
      TsTypePrints(w, elem, depth, seen, tidy);
      OrNullPrints(TsType(w, elem, depth, seen), elem.Pointer?, tidy);
    case Slice(elem) =>
      if !elem.Uint8? {
        TsTypePrints(w, elem, depth, seen, tidy);
        ArrayOfPrints(TsType(w, elem, depth, seen), elem.Pointer?, tidy);
      }
    case Array(elem) =>
      TsTypePrints(w, elem, depth, seen, tidy);
      ArrayOfPrints(TsType(w, elem, depth, seen), elem.Pointer?, tidy);
    case Map(key, elem) =>
      TsTypePrints(w, elem, depth, seen, tidy);
      PrintedIsText(TsType(w, elem, depth, seen), elem.Pointer?, tidy);
      RecordPrints(TsType(w, elem, depth, seen), tidy);
    case Struct(id) =>
      StructFieldsPrint(w, id, depth, seen, tidy);
      ObjectPrints(NewShape(StructFields(w, id, depth, seen)), tidy);
    case _ =>
  }

  lemma {:induction false} StructFieldsPrint(w: World, id: string, depth: nat, seen: set<string>, tidy: bool)
    requires NamesRead(w, tidy)
    ensures AreGoodFields(StructFields(w, id, depth, seen), tidy)
    ensures AreGoodFields(NewShape(StructFields(w, id, depth, seen)), tidy)
    decreases Unseen(w, seen), 1
  {
    hide IsGoodField, NewShape, Picked, FieldsRead, Collect;
    if depth > w.maxDepth || id in seen || id !in w.structs {
      NewShapeHolds([]);
    } else {
      Entering(w, id, seen);
      CollectPrints(w, w.structs[id], depth, 0, seen + {id}, tidy);
      PickedAreGood(Candidates(w, id, depth, seen), tidy);
    }
  }

  lemma {:induction false} CollectPrints(w: World, fields: seq<StructField>, depth: nat, embedDepth: nat,
                                         seen: set<string>, tidy: bool)
    requires NamesRead(w, tidy) && FieldsRead(fields, tidy)
    ensures AreGoodCandidates(Collect(w, fields, depth, embedDepth, seen), tidy)
    decreases Unseen(w, seen), 6, |fields|
  {
    hide IsGoodField, FieldReads, CollectField, NamesRead;
    if fields != [] {
      CollectFieldPrints(w, fields[0], depth, embedDepth, seen, tidy);
      CollectPrints(w, fields[1..], depth, embedDepth, seen, tidy);
    }
  }

  lemma {:induction false} CollectFieldPrints(w: World, sf: StructField, depth: nat, embedDepth: nat,
                                              seen: set<string>, tidy: bool)
    requires NamesRead(w, tidy) && FieldReads(sf, tidy)
    ensures AreGoodCandidates(CollectField(w, sf, depth, embedDepth, seen), tidy)
    decreases Unseen(w, seen), 5
  {
    hide FieldsRead, IsSkipped, IsFlattened, Collect, IsTypeText, NameReads, FieldType;
    if IsSkipped(sf) {
    } else if IsFlattened(sf) {
      var ft := Deref(sf.ty);
      if ft.Struct? && ft.id in w.structs && ft.id !in seen {
        Entering(w, ft.id, seen);
        CollectPrints(w, w.structs[ft.id], depth, embedDepth + 1, seen + {ft.id}, tidy);
      }
    } else {
      FieldTypePrints(w, sf.ty, sf.tag, depth + 1, seen, tidy);
    }
  }

  /** A field's text, whether or not the key may be absent; absent ones are no unions. */
  lemma {:induction false} FieldTypePrints(w: World, t: GoType, tag: Tag, depth: nat, seen: set<string>, tidy: bool)
    requires NamesRead(w, tidy)
    ensures var (ts, optional) := FieldType(w, t, tag, depth, seen);
      IsTypeText(ts, 0, tidy) && IsPrintedType(ts, !optional && t.Pointer?, tidy)
    decreases Unseen(w, seen), 4
  {
    hide IsTypeText, HasTopLevelUnion, TsType, NamesRead, CanEncodeEmpty;
    TsTypePrints(w, t, depth, seen, tidy);
    if !t.Pointer? { PrintedNot(TsType(w, t, depth, seen), tidy); }
    var (ts, optional) := FieldType(w, t, tag, depth, seen);
    PrintedIsText(ts, !optional && t.Pointer?, tidy);
  }

  /** Every type's text ends the brackets it begins, and is a union at its top exactly for a pointer. */
  lemma TypesAreBalanced(w: World, t: GoType, depth: nat, seen: set<string>, tidy: bool)
    requires NamesRead(w, tidy)
    ensures var ts := TsType(w, t, depth, seen);
      Net(ts) == 0 && (tidy ==> !Dips(ts, 0)) && (HasTopLevelUnion(ts) <==> t.Pointer?)
  {
    TsTypePrints(w, t, depth, seen, tidy);
    PrintedIsText(TsType(w, t, depth, seen), t.Pointer?, tidy);
    BonesCount(TsType(w, t, depth, seen), 0, true);
  }

  // ------------------------------------------------------- what the scanners read back

  /** What a type points at in the end. */
  function Core(t: GoType): (core: GoType)
    ensures !core.Pointer?
  {
    if t.Pointer? then Core(t.elem) else t
  }

  /** The members of a text that is no union, and of one with null added. */
  lemma SplitNullable(x: string)
    requires IsTypeText(x, -1, false)
    ensures SplitUnion(CanonicalTS(x)) == [CanonicalTS(x)]
    ensures SplitUnion(CanonicalTS(x + " | null")) == [CanonicalTS(x), "null"]
  {
    var form := CanonicalTS(x);
    PartLower(x, false);
    CanonicalBones(x);
    BonesCount(form, 0, false);
    BonesCount(Kept(x), 0, false);
    hide SplitUnion, CanonicalTS, IsClosed;
    CanonicalNull(x);
    SplitOneIff(form);
    SplitNullIff(form);
  }

  lemma {:induction false} PointerText(w: World, t: GoType, depth: nat, seen: set<string>)
    requires NamesRead(w, false)
    ensures TsType(w, t, depth, seen) == TsType(w, Core(t), depth, seen) + if t.Pointer? then " | null" else ""
  {
    hide NamesRead, IsTypeText, HasTopLevelUnion;
    if t.Pointer? {
      var text := TsType(w, t.elem, depth, seen);
      PointerText(w, t.elem, depth, seen);
      TsTypePrints(w, t.elem, depth, seen, false);
      if !t.elem.Pointer? {
        PrintedNot(text, false);
        assert TsType(w, t.elem, depth, seen) + "" == text;
      }
    } else {
      assert TsType(w, t, depth, seen) + "" == TsType(w, t, depth, seen);
    }
  }

  /**
   Printed, canonicalized and split, a type has one member, the type under its
   pointers; a pointer has `null` after it.
   */
  lemma PrinterAndScannerAgree(w: World, t: GoType, depth: nat, seen: set<string>)
    requires NamesRead(w, false)
    ensures SplitUnion(CanonicalTS(TsType(w, t, depth, seen)))
         == [CanonicalTS(TsType(w, Core(t), depth, seen))] + if t.Pointer? then ["null"] else []
  {
    hide NamesRead, IsTypeText, HasTopLevelUnion, TsType, SplitUnion, CanonicalTS;
    TsTypePrints(w, Core(t), depth, seen, false);
    PointerText(w, t, depth, seen);
    SplitNullable(TsType(w, Core(t), depth, seen));
    var text := TsType(w, Core(t), depth, seen);
    assert text + "" == text;
  }

  /** A key that may be absent is never a union; one always present is a union for a pointer only. */
  lemma FieldTypeMembers(w: World, t: GoType, tag: Tag, depth: nat, seen: set<string>)
    requires NamesRead(w, false)
    ensures var (ts, optional) := FieldType(w, t, tag, depth, seen);
      SplitUnion(CanonicalTS(ts))
        == [CanonicalTS(TsType(w, Core(t), depth, seen))] + if t.Pointer? && !optional then ["null"] else []
  {
    hide NamesRead, IsTypeText, HasTopLevelUnion, TsType, SplitUnion, CanonicalTS, CanEncodeEmpty;
    TsTypePrints(w, Core(t), depth, seen, false);
    PointerText(w, t, depth, seen);
    PrinterAndScannerAgree(w, t, depth, seen);
    var text := TsType(w, Core(t), depth, seen);
    PrintedNot(text, false);
    TrimNull(text);
    SplitNullable(text);
    assert text + "" == text;
    assert [CanonicalTS(text)] + [] == [CanonicalTS(text)];
  }

  predicate IsClosing(c: char) {
    c == ']' || c == '>' || c == '}'
  }

  /** A type that is no pointer prints as one of four words, or as something in brackets. */
  lemma TextEnds(w: World, t: GoType, depth: nat, seen: set<string>)
    requires !t.Pointer?
    ensures var ts := TsType(w, t, depth, seen);
      ts == "string" || ts == "number" || ts == "boolean" || ts == "unknown" || (ts != "" && IsClosing(ts[|ts| - 1]))
  {
    hide HasTopLevelUnion, MemberList, StructFields, NewShape;
  }

  lemma WordIsCanonical(word: string)
    requires word != "" && forall c :: c in word ==> IsWord(c)
    ensures CanonicalTS(word) == word
  {
    assert word[|word| - 1] in word && word[0] in word;
    assert word + "" == word && "" + word + "" == word;
    assert Scan("", word[|word| - 1], false) == "";
    hide Scan, Finish;
    ScanCopied(word, "", NoRune, false);
    LacksIn(word);
    FinishNothing(word);
  }

  lemma FinishNothing(word: string)
    requires word != "" && LacksSemiBrace(word) && word[|word| - 1] != ';'
    ensures Finish(word) == word
  {
    FinishKeeps(word, "");
    assert word + "" == word;
  }

  lemma CanonicalIs(ts: string, word: string)
    requires EndsWell(ts) && word != "" && forall c :: c in word ==> IsWord(c)
    requires (forall c :: c in ts ==> IsWord(c)) || IsClosing(ts[|ts| - 1])
    ensures CanonicalTS(ts) == word <==> ts == word
  {
    CanonicalEnds(ts);
    hide CanonicalTS, IsClosed;
    WordIsCanonical(word);
    assert word[|word| - 1] in word;
    if forall c :: c in ts ==> IsWord(c) { WordIsCanonical(ts); }
  }

  /** A pointer's prop takes what it points at: null is the one member more it has. */
  lemma PointerTakesElem(w: World, t: GoType, depth: nat, seen: set<string>)
    requires NamesRead(w, false)
    ensures Members(TsType(w, Pointer(t), depth, seen)) == Members(TsType(w, t, depth, seen)) + {"null"}
    ensures Assignable(TsType(w, Pointer(t), depth, seen), TsType(w, t, depth, seen))
  {
    hide NamesRead, TsType, SplitUnion, CanonicalTS;
    PrinterAndScannerAgree(w, t, depth, seen);
    PrinterAndScannerAgree(w, Pointer(t), depth, seen);
  }

  lemma PrintedEndsWell(ts: string)
    requires IsPrintedType(ts, false, false)
    ensures EndsWell(ts)
  {
  }

  lemma FourWords(ts: string)
    ensures ts == "string" || ts == "number" || ts == "boolean" || ts == "unknown" ==> forall c :: c in ts ==> IsWord(c)
  {
  }

  lemma TextIsWordOr(w: World, t: GoType, depth: nat, seen: set<string>, word: string)
    requires NamesRead(w, false) && !t.Pointer? && word != "" && forall c :: c in word ==> IsWord(c)
    ensures CanonicalTS(TsType(w, t, depth, seen)) == word <==> TsType(w, t, depth, seen) == word
  {
    hide NamesRead, TsType, CanonicalTS, IsPrintedType, EndsWell;
    TsTypePrints(w, t, depth, seen, false);
    PrintedEndsWell(TsType(w, t, depth, seen));
    TextEnds(w, t, depth, seen);
    FourWords(TsType(w, t, depth, seen));
    CanonicalIs(TsType(w, t, depth, seen), word);
  }

  /** The other way only where nothing is said about the type at all. */
  lemma ElemTakesPointerIff(w: World, t: GoType, depth: nat, seen: set<string>)
    requires NamesRead(w, false) && !t.Pointer?
    ensures Assignable(TsType(w, t, depth, seen), TsType(w, Pointer(t), depth, seen))
       <==> TsType(w, t, depth, seen) == "unknown"
  {
    hide NamesRead, TsType, SplitUnion, CanonicalTS, IsTypeText, HasTopLevelUnion;
    PrinterAndScannerAgree(w, t, depth, seen);
    PrinterAndScannerAgree(w, Pointer(t), depth, seen);
    TextEnds(w, t, depth, seen);
    TextIsWordOr(w, t, depth, seen, "null");
    TextIsWordOr(w, t, depth, seen, "unknown");
    assert "null" in Members(TsType(w, Pointer(t), depth, seen));
  }
}

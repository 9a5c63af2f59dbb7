/**
 Exactly which JSON names the printer and the scanners agree over: for every other
 there is a struct of one field, and a type made of it, that reads back wrong.
 */
module PrinterNames {
  import opened Wrappers
  import opened Text
  import opened Sorting
  import opened Canonical
  import opened CanonicalForms
  import opened Shapes
  import opened TypeText
  import opened TypeScan
  import opened Mapper
  import opened PrinterScanner

  /** The bracket counter sees a union, and splitting gives null, exactly for a pointer. */
  predicate ReadsRight(w: World, t: GoType) {
    var text := TsType(w, t, 0, {});
    (HasTopLevelUnion(text) <==> t.Pointer?) &&
    SplitUnion(CanonicalTS(text)) == [CanonicalTS(TsType(w, Core(t), 0, {}))] + if t.Pointer? then ["null"] else []
  }

  ghost predicate HasNames(w: World, names: iset<string>) {
    forall id, i :: id in w.structs && 0 <= i < |w.structs[id]| ==> JsonName(w.structs[id][i]) in names
  }

  /** Every type of every world with these names reads back right. */
  ghost predicate AllReadRight(names: iset<string>) {
    forall w: World, t: GoType :: HasNames(w, names) ==> ReadsRight(w, t)
  }

  lemma {:induction false} FieldsOfNames(fields: seq<StructField>, names: iset<string>)
    requires forall n :: n in names ==> NameReads(n, false)
    requires forall i :: 0 <= i < |fields| ==> JsonName(fields[i]) in names
    ensures FieldsRead(fields, false)
  {
    hide NameReads, JsonName, IsSkipped, IsFlattened;
    if fields != [] {
      assert forall i :: 0 <= i < |fields[1..]| ==> fields[1..][i] == fields[i + 1];
      FieldsOfNames(fields[1..], names);
    }
  }

  lemma ReadableNamesRead(w: World, t: GoType, names: iset<string>)
    requires HasNames(w, names) && forall n :: n in names ==> NameReads(n, false)
    ensures ReadsRight(w, t)
  {
    hide NameReads, JsonName, FieldsRead, TsType, HasTopLevelUnion, SplitUnion, CanonicalTS, Core;
    forall id | id in w.structs ensures FieldsRead(w.structs[id], false) {
      FieldsOfNames(w.structs[id], names);
    }
    TypesAreBalanced(w, t, 0, {}, false);
    PrinterAndScannerAgree(w, t, 0, {});
  }

  // ------------------------------------------------------------- a struct of one field

  function OneField(name: string): World {
    World(map["S" := [StructField("F", true, false, String, Tag(name, true, false, false, false, false))]], 12)
  }

  lemma OneCandidate(name: string)
    requires name != ""
    ensures Candidates(OneField(name), "S", 0, {}) == [Candidate(Field(name, "string", false), 0, true)]
  {
    var w, c := OneField(name), Candidate(Field(name, "string", false), 0, true);
    var sf := w.structs["S"][0];
    assert w.structs["S"] == [sf] && [sf][1..] == [];
    assert FieldType(w, String, sf.tag, 1, {"S"}) == ("string", false);
    assert CollectField(w, sf, 0, 0, {"S"}) == [c];
    assert {} + {"S"} == {"S"};
    assert Collect(w, [sf], 0, 0, {"S"}) == [c] + Collect(w, [], 0, 0, {"S"}) == [c];
  }

  lemma OnlyCandidate(c: Candidate)
    ensures NewShape(Picked([c])) == [c.field]
  {
    assert [c][1..] == [] && [c.field][1..] == [];
    assert Group([c], c.field.name) == [c] + Group([], c.field.name) == [c];
    assert Picked([c]) == [c.field] + PickedFrom([], [c]) == [c.field];
    SortOne(c.field, FieldKey);
  }

  function OneText(name: string): string {
    ("{ " + name) + ": string }"
  }

  lemma OneFieldText(name: string)
    requires name != ""
    ensures TsType(OneField(name), Struct("S"), 0, {}) == OneText(name)
  {
    OneCandidate(name);
    OnlyCandidate(Candidate(Field(name, "string", false), 0, true));
    hide NewShape, Picked, Candidates;
    OneObject(name);
  }

  lemma OneObject(name: string)
    ensures ObjectLiteral([Field(name, "string", false)]) == OneText(name)
  {
    var f := Field(name, "string", false);
    assert MemberList([f]) == MemberText(f) == name + ": " + "string";
    assert ": " + ("string" + " }") == ": string }";
    assert "{ " + (name + ": " + "string") + " }" == ("{ " + name) + (": " + ("string" + " }"));
  }

  /** The struct as a value of that many maps. */
  function Nested(maps: nat): GoType {
    if maps == 0 then Struct("S") else Map(String, Nested(maps - 1))
  }

  function NestedText(name: string, maps: nat): string {
    if maps == 0 then OneText(name) else "Record<string, " + NestedText(name, maps - 1) + ">"
  }

  lemma {:induction false} NestedPrints(name: string, maps: nat)
    requires name != ""
    ensures TsType(OneField(name), Nested(maps), 0, {}) == NestedText(name, maps) && Core(Nested(maps)) == Nested(maps)
  {
    if maps == 0 {
      OneFieldText(name);
    } else {
      NestedPrints(name, maps - 1);
    }
  }

  /** The brackets around what is in the name. */
  function NestedBones(bones: string, maps: nat): string {
    if maps == 0 then ['{'] + bones + ['}'] else ['<'] + NestedBones(bones, maps - 1) + ['>']
  }

  lemma {:induction false} NestedCounts(bones: string, maps: nat, depth: int, both: bool)
    ensures Net(NestedBones(bones, maps)) == Net(bones)
    ensures Bars(NestedBones(bones, maps), depth, both) <==> Bars(bones, depth + 1 + maps, both)
  {
    if maps == 0 {
      WrappedCounts('{', bones, '}', depth, both);
    } else {
      NestedCounts(bones, maps - 1, depth + 1, both);
      WrappedCounts('<', NestedBones(bones, maps - 1), '>', depth, both);
    }
  }

  // What opens and closes a printed text is bare, with one bracket in it.

  lemma OpenBrace()
    ensures IsBare("{ ") && Bones("{ ") == ['{']
  {
    assert "{ "[1..] == " " && " "[1..] == "";
  }

  lemma CloseText()
    ensures ": string " + "}" == ": string }"
  {
  }

  lemma CloseSilent()
    ensures Bones(": string ") == ""
  {
    NoBones(": string ");
  }

  lemma CloseIsBare()
    ensures IsBare(": string }") && Bones("}") == ['}']
  {
    assert "}"[1..] == "";
  }

  lemma CloseBrace()
    ensures IsBare(": string }") && Bones(": string }") == ['}']
  {
    hide Bones, IsBare;
    CloseIsBare();
    CloseSilent();
    CloseText();
    BonesAppend(": string ", "}");
  }

  lemma RecordText()
    ensures "Record" + ("<" + "string, ") == "Record<string, "
  {
  }

  lemma RecordSilent()
    ensures Bones("Record") == "" && Bones("string, ") == ""
  {
    hide Bones;
    NoBones("Record");
    NoBones("string, ");
  }

  lemma OpenRecord()
    ensures Bones("Record<string, ") == ['<']
  {
    assert "<"[1..] == "";
    assert Bones("<") == "<";
    hide Bones;
    RecordSilent();
    RecordText();
    BonesAppend("<", "string, ");
    BonesAppend("Record", "<" + "string, ");
  }

  lemma RecordIsBare()
    ensures IsBare("Record<string, ") && IsBare(">") && Bones(">") == ['>']
  {
    assert ">"[1..] == "";
  }

  /** A text between two bare pieces. */
  lemma BetweenBare(open: string, x: string, close: string)
    requires IsBare(open) && IsBare(close) && open != "" && close != "" && close[0] != '*'
    ensures Bones((open + x) + close) == Bones(open) + Bones(x) + Bones(close)
    ensures IsClosed(open + x) <==> IsClosed(x)
    ensures IsClosed(x) ==>
      IsClosed((open + x) + close) && Bones(Kept((open + x) + close)) == Bones(open) + Bones(Kept(x)) + Bones(close)
  {
    assert open[|open| - 1] in open && close[0] in close;
    hide IsClosed, Kept, Bones, IsBare;
    BonesAppend(open, x);
    BonesAppend(open + x, close);
    BareIsClosed(open);
    BareIsClosed(close);
    KeptAppend(open, x);
    if IsClosed(x) {
      KeptAppend(open + x, close);
      BonesAppend(Kept(open), Kept(x));
      BonesAppend(Kept(open) + Kept(x), Kept(close));
    }
  }

  lemma {:induction false} NestedIsRead(name: string, maps: nat)
    ensures Bones(NestedText(name, maps)) == NestedBones(Bones(name), maps)
    ensures IsClosed(name) ==>
      EndsWell(NestedText(name, maps)) && Bones(Kept(NestedText(name, maps))) == NestedBones(Bones(Kept(name)), maps)
  {
    hide IsClosed, Kept, Bones, IsBare;
    if maps == 0 {
      OpenBrace();
      CloseBrace();
      BetweenBare("{ ", name, ": string }");
      LastIs("{ " + name, ": string }");
    } else {
      NestedIsRead(name, maps - 1);
      var inner := NestedText(name, maps - 1);
      OpenRecord();
      RecordIsBare();
      BetweenBare("Record<string, ", inner, ">");
      LastIs("Record<string, " + inner, ">");
    }
  }

  // ------------------------------------------------------------------- what reads wrong

  /** A bar below, where the bracket counter of the mapper sees it. */
  lemma LowBarReadsWrong(name: string) returns (t: GoType)
    requires name != "" && BarBelow(Bones(name), 0, true)
    ensures !ReadsRight(OneField(name), t)
  {
    hide TsType, SplitUnion, CanonicalTS, Core, Bones, Bars, BarBelow, NestedText, NestedBones;
    var up := FindBar(Bones(name), 0, true);
    t := Nested(up - 1);
    NestedPrints(name, up - 1);
    NestedIsRead(name, up - 1);
    NestedCounts(Bones(name), up - 1, 0, true);
    BonesCount(NestedText(name, up - 1), 0, true);
  }

  lemma PointerPrints(name: string)
    requires name != ""
    ensures TsType(OneField(name), Pointer(Struct("S")), 0, {}) == OneText(name) + " | null"
    ensures TsType(OneField(name), Core(Pointer(Struct("S"))), 0, {}) == OneText(name)
  {
    OneFieldText(name);
    hide StructFields, OneText;
    NoNullSuffix(name);
  }

  lemma NoNullSuffix(name: string)
    ensures !HasSuffix(OneText(name), " | null")
  {
    LastIs("{ " + name, ": string }");
    if HasSuffix(OneText(name), " | null") { NullSuffixEnds(OneText(name)); }
  }

  lemma NullSuffixEnds(s: string)
    requires HasSuffix(s, " | null")
    ensures s[|s| - 1] == 'l'
  {
    assert s[|s| - |" | null"|..][|" | null"| - 1] == s[|s| - 1];
  }

  /** What a pointer to the struct must read back as, and does not. */
  lemma PointerReadsWrong(name: string)
    requires name != ""
    requires !HasTopLevelUnion(OneText(name) + " | null") ||
             SplitUnion(CanonicalTS(OneText(name) + " | null")) != [CanonicalTS(OneText(name)), "null"]
    ensures !ReadsRight(OneField(name), Pointer(Struct("S")))
  {
    hide TsType, SplitUnion, CanonicalTS, HasTopLevelUnion, OneText, Core;
    PointerPrints(name);
  }

  lemma BarAtEnd(x: string)
    ensures Bars(x + "|", 0, true) <==> Bars(x, 0, true) || Net(x) == 0
  {
    BarsAppend(x, "|", 0, true);
    assert "|"[1..] == "";
  }

  /** Brackets that do not end where they began: a pointer is taken for no union. */
  lemma UnevenReadsWrong(name: string)
    requires name != "" && !BarBelow(Bones(name), 0, true) && Net(Bones(name)) != 0
    ensures !ReadsRight(OneField(name), Pointer(Struct("S")))
  {
    hide TsType, SplitUnion, CanonicalTS, Bones, Net, Bars, BarBelow, NestedBones;
    var text := OneText(name);
    NestedIsRead(name, 0);
    NullBones();
    BonesAppend(text, " | null");
    BonesCount(text + " | null", 0, true);
    BarAtEnd(Bones(text));
    NestedCounts(Bones(name), 0, 0, true);
    if Bars(Bones(name), 1, true) { BarIsBelow(Bones(name), 1, true); }
    PointerReadsWrong(name);
  }

  /** A bar below outside comments, where splitting sees it. */
  lemma LowKeptBarReadsWrong(name: string) returns (t: GoType)
    requires name != "" && IsClosed(name) && BarBelow(Bones(Kept(name)), 0, false)
    ensures !ReadsRight(OneField(name), t)
  {
    hide TsType, SplitUnion, CanonicalTS, NestedText, NestedBones, HasTopLevelUnion, Kept, IsClosed, Bones, Bars, BarBelow;
    var up := FindBar(Bones(Kept(name)), 0, false);
    t := Nested(up - 1);
    var text := NestedText(name, up - 1);
    NestedPrints(name, up - 1);
    NestedIsRead(name, up - 1);
    NestedCounts(Bones(Kept(name)), up - 1, 0, false);
    CanonicalBones(text);
    BonesCount(CanonicalTS(text), 0, false);
    SplitOneIff(CanonicalTS(text));
    assert [CanonicalTS(text)] + [] == [CanonicalTS(text)];
  }

  /** Brackets outside comments that do not end where they began: null is not split off. */
  lemma UnevenKeptReadsWrong(name: string)
    requires name != "" && IsClosed(name) && Net(Bones(Kept(name))) != 0
    ensures !ReadsRight(OneField(name), Pointer(Struct("S")))
  {
    hide TsType, SplitUnion, CanonicalTS, HasTopLevelUnion, Kept, IsClosed, Core, Bones, Net, NestedBones;
    var text := OneText(name);
    NestedIsRead(name, 0);
    NestedCounts(Bones(Kept(name)), 0, 0, false);
    CanonicalBones(text);
    BonesCount(CanonicalTS(text), 0, false);
    CanonicalNull(text);
    SplitNullIff(CanonicalTS(text));
    PointerReadsWrong(name);
  }

  lemma InertPieces()
    ensures IsInert(": string }") && IsInert(": string } | null") && ": string } | null" == ": string }" + " | null"
  {
  }

  /** What is open at the end of the name swallows or copies what follows it. */
  lemma OpenTexts(name: string) returns (copied: string)
    requires !IsClosed(name)
    ensures var text := OneText(name);
      Scan(text + " | null", NoRune, false) == Scan(text, NoRune, false) + copied &&
      (copied == "" || (copied == " | null" && Scan(text, NoRune, false) != "" &&
                        Scan(text, NoRune, false)[|Scan(text, NoRune, false)| - 1] == '}'))
  {
    hide Kept, IsClosed, Scan, OpenText, EndsInString, IsInert, IsBare, Bones;
    var open, more := "{ " + name, ": string }";
    OpenBrace();
    CloseBrace();
    BetweenBare("{ ", name, more);
    InertPieces();
    OpenScan(open, more, NoRune, false);
    OpenScan(open, more + " | null", NoRune, false);
    copied := if EndsInString(open) then " | null" else "";
    OpenEnds(OpenText(open, NoRune, false), more, " | null");
    assert (open + more) + " | null" == open + (more + " | null");
  }

  lemma OpenEnds(a: string, b: string, c: string)
    requires b != ""
    ensures a + (b + c) == (a + b) + c && a + "" == (a + "") + "" && (a + b)[|a + b| - 1] == b[|b| - 1]
  {
  }

  /** A comment or a string never closed: what null adds is swallowed, or copied blanks and all. */
  lemma OpenReadsWrong(name: string)
    requires name != "" && !IsClosed(name)
    ensures !ReadsRight(OneField(name), Pointer(Struct("S")))
  {
    hide SplitUnion, HasTopLevelUnion, IsClosed, Scan, Finish, OneText;
    var text := OneText(name);
    var copied := OpenTexts(name);
    var form := CanonicalTS(text);
    var scanned := Scan(text, NoRune, false);
    if copied == "" { assert scanned + copied == scanned; } else { FinishThen(scanned, " | null"); }
    assert |CanonicalTS(text + " | null")| != |form| + 5;
    JoinSplit(CanonicalTS(text + " | null"));
    JoinPair(form);
    PointerReadsWrong(name);
  }

  lemma JoinPair(form: string)
    ensures |JoinUnion([form, "null"])| == |form| + 5
  {
    assert [form, "null"][1..] == ["null"];
  }

  lemma UnreadableReadsWrong(name: string) returns (t: GoType)
    requires name != "" && !NameReads(name, false)
    ensures !ReadsRight(OneField(name), t)
  {
    hide ReadsRight, IsClosed, Kept, Bones, BarBelow, Net;
    t := Pointer(Struct("S"));
    if !IsClosed(name) {
      OpenReadsWrong(name);
    } else if BarBelow(Bones(name), 0, true) {
      t := LowBarReadsWrong(name);
    } else if Net(Bones(name)) != 0 {
      UnevenReadsWrong(name);
    } else if BarBelow(Bones(Kept(name)), 0, false) {
      t := LowKeptBarReadsWrong(name);
    } else {
      UnevenKeptReadsWrong(name);
    }
  }

  /** A name such as `http://x`: what follows two slashes outside a string is a comment never closed. */
  lemma SlashesAreUnread(a: string, b: string)
    requires IsClosed(a) && (a == "" || a[|a| - 1] != '/') && '\n' !in b
    ensures !NameReads(a + ("//" + b), false)
  {
    var comment := "//" + b;
    assert comment[0] == '/' && comment[1] == '/' && comment[2..] == b;
    LineInert(b);
    assert !FirstCloses(comment);
    KeptAppend(a, comment);
  }

  lemma OneFieldHasNames(name: string, names: iset<string>)
    requires name in names && name != ""
    ensures HasNames(OneField(name), names)
  {
  }

  /**
   Printer and scanners agree on every type over these names exactly when each name
   leaves no string or comment open, ends the brackets it begins, and has no bar
   lower than it begins, comments counted or not.
   */
  lemma NamesReadIff(names: iset<string>)
    ensures AllReadRight(names) <==> forall n :: n in names ==> NameReads(n, false)
  {
    hide ReadsRight, HasNames, NameReads;
    if forall n :: n in names ==> NameReads(n, false) {
      forall w: World, t: GoType | HasNames(w, names) ensures ReadsRight(w, t) {
        ReadableNamesRead(w, t, names);
      }
    } else {
      var n :| n in names && !NameReads(n, false);
      IdentifierReads("");
      EmptyReads();
      var t := UnreadableReadsWrong(n);
      OneFieldHasNames(n, names);
    }
  }

  lemma EmptyReads()
    ensures NameReads("", false)
  {
    IdentifierReads("");
  }
}

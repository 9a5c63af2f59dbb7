/**
 What canonicalizing leaves of a text's brackets and bars: those outside its
 comments. And when the scanner is between two lexemes at the end of a text, so
 that what follows is read as if it stood alone.
 */
module TypeScan {
  import opened Text
  import opened Canonical
  import opened CanonicalForms
  import opened Shapes
  import opened TypeText

  /** What the scanner copies, without the gaps it puts between words. */
  function Kept(s: string): string
    decreases |s|
  {
    if s == "" then "" else Step(s, NoRune, false).text + Kept(Step(s, NoRune, false).rest)
  }

  predicate BlockCloses(s: string) {
    |s| >= 2 && ((s[0] == '*' && s[1] == '/') || BlockCloses(s[1..]))
  }

  predicate StringCloses(s: string, q: char) {
    s != "" &&
    if s[0] == '\\' && |s| > 1 then StringCloses(s[2..], q) else s[0] == q || StringCloses(s[1..], q)
  }

  /** The lexeme or comment a text begins with ends inside the text. */
  predicate FirstCloses(s: string)
    requires s != ""
  {
    if s[0] == '/' && |s| > 1 && s[1] == '/' then AfterLine(s[2..]) != ""
    else if s[0] == '/' && |s| > 1 && s[1] == '*' then BlockCloses(s[2..])
    else if IsQuote(s[0]) then StringCloses(s[1..], s[0])
    else true
  }

  /** No string and no comment is open at the end. */
  predicate IsClosed(s: string)
    decreases |s|
  {
    s == "" || (FirstCloses(s) && IsClosed(Step(s, NoRune, false).rest))
  }

  /** No comment begins where the one ends and the other begins. */
  predicate Joins(a: string, b: string) {
    a == "" || b == "" || a[|a| - 1] != '/' || (b[0] != '/' && b[0] != '*')
  }

  // -------------------------------------------------------- the scanner, piece by piece

  lemma StepAnywhere(s: string, prev: char, pending: bool)
    requires s != ""
    ensures var t, u := Step(s, prev, pending), Step(s, NoRune, false);
      t.rest == u.rest && (t.text == u.text || t.text == " " + u.text)
  {
    hide StringLength, AfterLine, AfterBlock;
    var c := s[0];
    if IsQuote(c) {
      var n := StringLength(s[1..], c);
      assert "" + s[..1 + n] == s[..1 + n] && Gap(prev, pending, c) == "";
    } else {
      assert "" + [c] == [c] && "" + ";" == ";";
    }
  }

  lemma BlankHasNoBones(text: string)
    ensures Bones(" " + text) == Bones(text)
  {
    assert (" " + text)[1..] == text;
  }

  /** Gaps aside, the scanner writes what it copies. */
  lemma {:induction false} ScanBones(s: string, prev: char, pending: bool)
    ensures Bones(Scan(s, prev, pending)) == Bones(Kept(s))
    decreases |s|
  {
    if s != "" {
      var t, u := Step(s, prev, pending), Step(s, NoRune, false);
      StepAnywhere(s, prev, pending);
      ScanBones(t.rest, t.prev, t.pending);
      hide Step;
      BonesAppend(t.text, Scan(t.rest, t.prev, t.pending));
      BonesAppend(u.text, Kept(u.rest));
      BlankHasNoBones(u.text);
    }
  }

  /** A gap in front changes no end. */
  lemma EndsAlike(text: string, copied: string, more: string, left: string)
    requires (text == copied || text == " " + copied) && copied + left != ""
    requires if left == "" then more == "" else more != "" && more[|more| - 1] == left[|left| - 1]
    ensures text + more != "" && (text + more)[|text + more| - 1] == (copied + left)[|copied + left| - 1]
  {
  }

  /** The scanner ends with what it copied last. */
  lemma {:induction false} ScanEnds(s: string, prev: char, pending: bool)
    requires Kept(s) != ""
    ensures var scanned := Scan(s, prev, pending);
      scanned != "" && scanned[|scanned| - 1] == Kept(s)[|Kept(s)| - 1]
    decreases |s|
  {
    hide Step;
    var t, u := Step(s, prev, pending), Step(s, NoRune, false);
    StepAnywhere(s, prev, pending);
    if Kept(t.rest) == "" {
      NothingScanned(t.rest, t.prev, t.pending);
    } else {
      ScanEnds(t.rest, t.prev, t.pending);
    }
    EndsAlike(t.text, u.text, Scan(t.rest, t.prev, t.pending), Kept(u.rest));
  }

  lemma {:induction false} NothingScanned(s: string, prev: char, pending: bool)
    requires Kept(s) == ""
    ensures Scan(s, prev, pending) == ""
    decreases |s|
  {
    if s != "" {
      var t := Step(s, prev, pending);
      NothingStepped(s, prev, pending);
      NothingScanned(t.rest, t.prev, t.pending);
    }
  }

  lemma NothingStepped(s: string, prev: char, pending: bool)
    requires s != "" && Step(s, NoRune, false).text == ""
    ensures Step(s, prev, pending).text == "" && Step(s, prev, pending).rest == Step(s, NoRune, false).rest
  {
    hide StringLength, AfterLine, AfterBlock;
  }

  // ---------------------------------------------------------------- the whole comparison form

  lemma {:induction false} ReplaceBones(s: string)
    ensures Bones(ReplaceAll(s, ";}", "}")) == Bones(s)
  {
    if s != "" {
      if ";}" <= s {
        ReplaceBones(s[2..]);
        assert s == ";" + ("}" + s[2..]);
        BonesAppend("}", ReplaceAll(s[2..], ";}", "}"));
        BonesAppend(";", "}" + s[2..]);
        BonesAppend("}", s[2..]);
      } else {
        ReplaceBones(s[1..]);
        assert ([s[0]] + ReplaceAll(s[1..], ";}", "}"))[1..] == ReplaceAll(s[1..], ";}", "}");
      }
    }
  }

  lemma TrimBones(s: string)
    ensures Bones(TrimSuffix(s, ";")) == Bones(s)
  {
    if HasSuffix(s, ";") {
      assert s == s[..|s| - 1] + ";";
      BonesAppend(s[..|s| - 1], ";");
    }
  }

  /** Canonicalizing a text, any text, changes no bracket and no bar outside its comments. */
  lemma CanonicalBones(s: string)
    ensures Bones(CanonicalTS(s)) == Bones(Kept(s))
  {
    ScanBones(s, NoRune, false);
    ReplaceBones(Scan(s, NoRune, false));
    TrimBones(ReplaceAll(Scan(s, NoRune, false), ";}", "}"));
  }

  // ------------------------------------------------------------- one text after another

  lemma {:induction false} AfterLineAppend(s: string, more: string)
    requires AfterLine(s) != ""
    ensures AfterLine(s + more) == AfterLine(s) + more
  {
    if s[0] != '\n' {
      assert (s + more)[1..] == s[1..] + more;
      AfterLineAppend(s[1..], more);
    }
  }

  lemma {:induction false} AfterBlockAppend(s: string, more: string)
    requires BlockCloses(s)
    ensures AfterBlock(s + more) == AfterBlock(s) + more && BlockCloses(s + more)
  {
    if s[0] == '*' && s[1] == '/' {
      assert (s + more)[2..] == s[2..] + more;
    } else {
      assert (s + more)[1..] == s[1..] + more;
      AfterBlockAppend(s[1..], more);
    }
  }

  lemma {:induction false} StringAppend(s: string, q: char, more: string)
    requires StringCloses(s, q) && q != '\\'
    ensures StringLength(s + more, q) == StringLength(s, q) && StringCloses(s + more, q)
  {
    if s[0] == '\\' && |s| > 1 {
      assert (s + more)[2..] == s[2..] + more;
      StringAppend(s[2..], q, more);
    } else if s[0] != q {
      assert (s + more)[1..] == s[1..] + more;
      StringAppend(s[1..], q, more);
    }
  }

  lemma {:induction false} LineRestEnds(s: string)
    ensures AfterLine(s) != "" ==> AfterLine(s)[|AfterLine(s)| - 1] == s[|s| - 1]
  {
    if s != "" && s[0] != '\n' { LineRestEnds(s[1..]); }
  }

  lemma {:induction false} BlockRestEnds(s: string)
    ensures AfterBlock(s) != "" ==> AfterBlock(s)[|AfterBlock(s)| - 1] == s[|s| - 1]
  {
    if |s| >= 2 && !(s[0] == '*' && s[1] == '/') { BlockRestEnds(s[1..]); }
  }

  /** What is left ends as the text does. */
  lemma RestEnds(s: string, prev: char, pending: bool)
    requires s != ""
    ensures var rest := Step(s, prev, pending).rest; rest != "" ==> rest[|rest| - 1] == s[|s| - 1]
  {
    hide StringLength, AfterLine, AfterBlock;
    if |s| > 1 {
      LineRestEnds(s[2..]);
      BlockRestEnds(s[2..]);
    }
  }

  lemma StepLine(s: string, prev: char, pending: bool)
    requires |s| > 1 && s[0] == '/' && s[1] == '/'
    ensures Step(s, prev, pending) == Turn("", AfterLine(s[2..]), prev, true)
  {
  }

  lemma StepBlock(s: string, prev: char, pending: bool)
    requires |s| > 1 && s[0] == '/' && s[1] == '*'
    ensures Step(s, prev, pending) == Turn("", AfterBlock(s[2..]), prev, true)
  {
  }

  lemma StepString(s: string, prev: char, pending: bool)
    requires s != "" && IsQuote(s[0])
    ensures var n := StringLength(s[1..], s[0]); Step(s, prev, pending) == Turn(s[..1 + n], s[1 + n..], s[n], false)
  {
    hide StringLength;
    assert "" + s[..1 + StringLength(s[1..], s[0])] == s[..1 + StringLength(s[1..], s[0])];
  }

  lemma StepOther(s: string, prev: char, pending: bool)
    requires s != "" && !IsQuote(s[0]) && !(s[0] == '/' && |s| > 1 && (s[1] == '/' || s[1] == '*'))
    ensures Step(s, prev, pending) ==
      if s[0] == ',' then Turn(Gap(prev, pending, ';') + ";", s[1..], ';', false)
      else if IsSpace(s[0]) then Turn("", s[1..], prev, true)
      else Turn(Gap(prev, pending, s[0]) + [s[0]], s[1..], s[0], false)
  {
  }

  lemma CommentAppend(a: string, b: string, prev: char, pending: bool)
    requires |a| > 1 && a[0] == '/' && (a[1] == '/' || a[1] == '*') && FirstCloses(a)
    ensures var t := Step(a, prev, pending);
      Step(a + b, prev, pending) == t.(rest := t.rest + b) && FirstCloses(a + b)
  {
    hide Step, AfterLine, AfterBlock, BlockCloses;
    var s := a + b;
    assert s[0] == a[0] && s[1] == a[1] && s[2..] == a[2..] + b;
    if a[1] == '/' {
      AfterLineAppend(a[2..], b);
      StepLine(a, prev, pending);
      StepLine(s, prev, pending);
    } else {
      AfterBlockAppend(a[2..], b);
      StepBlock(a, prev, pending);
      StepBlock(s, prev, pending);
    }
  }

  lemma StringStepAppend(a: string, b: string, prev: char, pending: bool)
    requires a != "" && IsQuote(a[0]) && FirstCloses(a)
    ensures var t := Step(a, prev, pending);
      Step(a + b, prev, pending) == t.(rest := t.rest + b) && FirstCloses(a + b)
  {
    hide Step, StringLength, StringCloses;
    var s, q, n := a + b, a[0], StringLength(a[1..], a[0]);
    assert s[0] == q && s[1..] == a[1..] + b;
    StringAppend(a[1..], q, b);
    StepString(a, prev, pending);
    StepString(s, prev, pending);
    assert s[..1 + n] == a[..1 + n] && s[1 + n..] == a[1 + n..] + b && s[n] == a[n];
  }

  lemma OtherAppend(a: string, b: string, prev: char, pending: bool)
    requires a != "" && !IsQuote(a[0]) && !(a[0] == '/' && |a| > 1 && (a[1] == '/' || a[1] == '*')) && Joins(a, b)
    ensures var t := Step(a, prev, pending);
      Step(a + b, prev, pending) == t.(rest := t.rest + b) && FirstCloses(a + b)
  {
    hide Step;
    var s := a + b;
    assert s[0] == a[0] && s[1..] == a[1..] + b;
    assert |s| > 1 ==> s[1] == if |a| > 1 then a[1] else b[0];
    StepOther(a, prev, pending);
    StepOther(s, prev, pending);
  }

  /** What closes in a text is read alike before any other. */
  lemma StepAppend(a: string, b: string, prev: char, pending: bool)
    requires a != "" && FirstCloses(a) && Joins(a, b)
    ensures var t := Step(a, prev, pending);
      Step(a + b, prev, pending) == t.(rest := t.rest + b) && FirstCloses(a + b) && Joins(t.rest, b)
  {
    RestEnds(a, prev, pending);
    hide Step, FirstCloses;
    if |a| > 1 && a[0] == '/' && (a[1] == '/' || a[1] == '*') {
      CommentAppend(a, b, prev, pending);
    } else if IsQuote(a[0]) {
      StringStepAppend(a, b, prev, pending);
    } else {
      OtherAppend(a, b, prev, pending);
    }
  }

  /** The scanner's two variables at the end of a text. */
  function StateAfter(s: string, prev: char, pending: bool): (char, bool)
    decreases |s|
  {
    if s == "" then (prev, pending)
    else var t := Step(s, prev, pending); StateAfter(t.rest, t.prev, t.pending)
  }

  lemma {:induction false} ScanAppend(a: string, b: string, prev: char, pending: bool)
    requires IsClosed(a) && Joins(a, b)
    ensures var (prev', pending') := StateAfter(a, prev, pending);
      Scan(a + b, prev, pending) == Scan(a, prev, pending) + Scan(b, prev', pending')
    decreases |a|
  {
    hide Step, Joins, FirstCloses;
    if a == "" {
      assert a + b == b && "" + Scan(b, prev, pending) == Scan(b, prev, pending);
    } else {
      var t := Step(a, prev, pending);
      StepAnywhere(a, prev, pending);
      StepAppend(a, b, prev, pending);
      ScanAppend(t.rest, b, t.prev, t.pending);
      var (prev', pending') := StateAfter(a, prev, pending);
      assert t.text + (Scan(t.rest, t.prev, t.pending) + Scan(b, prev', pending'))
          == t.text + Scan(t.rest, t.prev, t.pending) + Scan(b, prev', pending');
    }
  }

  lemma {:induction false} KeptAppend(a: string, b: string)
    requires IsClosed(a) && Joins(a, b)
    ensures Kept(a + b) == Kept(a) + Kept(b) && (IsClosed(a + b) <==> IsClosed(b))
    decreases |a|
  {
    if a == "" {
      assert a + b == b && "" + Kept(b) == Kept(b);
    } else {
      var t := Step(a, NoRune, false);
      StepAppend(a, b, NoRune, false);
      KeptAppend(t.rest, b);
      hide Step;
      assert t.text + (Kept(t.rest) + Kept(b)) == t.text + Kept(t.rest) + Kept(b);
    }
  }

  // ------------------------------------------------------------------------ bare texts

  /** Nothing here opens a string or a comment. */
  predicate IsBare(x: string) {
    forall c :: c in x ==> !IsQuote(c) && c != '/'
  }

  lemma BareStep(x: string)
    requires x != "" && IsBare(x)
    ensures FirstCloses(x) && Step(x, NoRune, false).rest == x[1..]
    ensures Bones(Step(x, NoRune, false).text) == if IsBone(x[0]) then [x[0]] else ""
  {
    hide StringLength, AfterLine, AfterBlock;
    assert x[0] in x;
    assert "" + [x[0]] == [x[0]] && [x[0]][1..] == "" && ("" + ";")[1..] == "";
  }

  lemma {:induction false} BareIsClosed(x: string)
    requires IsBare(x)
    ensures IsClosed(x) && Bones(Kept(x)) == Bones(x)
  {
    if x != "" {
      BareStep(x);
      BareIsClosed(x[1..]);
      hide Step;
      BonesAppend(Step(x, NoRune, false).text, Kept(x[1..]));
    }
  }

  // --------------------------------------------------------------------- splitting

  lemma {:induction false} SplitFromOne(s: string, depth: int, member: string)
    ensures SplitFrom(s, depth, member) == [member + s] <==> !Bars(s, depth, false)
    decreases |s|
  {
    if s == "" {
      assert member + s == member;
    } else if s[0] == '|' && depth == 0 {
    } else {
      SplitFromOne(s[1..], DepthAfter(depth, s[0]), member + [s[0]]);
      assert member + [s[0]] + s[1..] == member + s;
    }
  }

  /** A text is its only member exactly when it has no bar outside brackets. */
  lemma SplitOneIff(s: string)
    ensures SplitUnion(s) == [s] <==> !Bars(s, 0, false)
  {
    SplitFromOne(s, 0, "");
    assert "" + s == s;
  }

  lemma {:induction false} SplitFromNull(s: string, depth: int, member: string)
    ensures SplitFrom(s + "|null", depth, member) == [member + s, "null"] <==> !Bars(s, depth, false) && depth + Net(s) == 0
    decreases |s|
  {
    var all := s + "|null";
    if s == "" {
      assert all == "|null" && all[1..] == "null" && member + s == member;
      NullIsOne("");
      NullIsOne(member + "|");
      assert "" + "null" == "null" && member + [all[0]] == member + "|";
    } else if s[0] == '|' && depth == 0 {
      assert SplitFrom(all, depth, member)[0] == member;
    } else {
      assert all[1..] == s[1..] + "|null" && all[0] == s[0];
      SplitFromNull(s[1..], DepthAfter(depth, s[0]), member + [s[0]]);
      assert member + [s[0]] + s[1..] == member + s;
    }
  }

  lemma NullIsOne(member: string)
    ensures forall depth :: SplitFrom("null", depth, member) == [member + "null"]
  {
    forall depth ensures !Bars("null", depth, false) {
      BonesCount("null", depth, false);
      NoBones("null");
    }
    forall depth ensures SplitFrom("null", depth, member) == [member + "null"] {
      SplitFromOne("null", depth, member);
    }
  }

  /** With null added it has two exactly when, besides, its brackets end where they began. */
  lemma SplitNullIff(s: string)
    ensures SplitUnion(s + "|null") == [s, "null"] <==> !Bars(s, 0, false) && Net(s) == 0
  {
    SplitFromNull(s, 0, "");
    assert "" + s == s;
  }

  // ---------------------------------------------------------------- the end of a closed text

  /** Copied as it is, wherever it stands outside strings and comments. */
  predicate IsEnd(c: char) {
    !IsQuote(c) && !IsSpace(c) && c != '/' && c != ',' && c != ';'
  }

  predicate EndsWell(x: string) {
    IsClosed(x) && x != "" && IsEnd(x[|x| - 1])
  }

  lemma {:induction false} BlockEnds(s: string)
    requires BlockCloses(s) && AfterBlock(s) == ""
    ensures s[|s| - 1] == '/'
  {
    if !(s[0] == '*' && s[1] == '/') { BlockEnds(s[1..]); }
  }

  lemma {:induction false} StringEnds(s: string, q: char)
    requires StringCloses(s, q) && StringLength(s, q) == |s|
    ensures s[|s| - 1] == q
  {
    if s[0] == '\\' && |s| > 1 {
      StringEnds(s[2..], q);
    } else if s[0] != q {
      StringEnds(s[1..], q);
    }
  }

  lemma LastPiece(x: string)
    requires EndsWell(x) && Step(x, NoRune, false).rest == ""
    ensures Step(x, NoRune, false).text == [x[|x| - 1]]
  {
    assert FirstCloses(x);
    hide Step, StringLength, AfterLine, AfterBlock, StringCloses, BlockCloses, IsClosed;
    if x[0] == '/' && |x| > 1 && x[1] == '/' {
      StepLine(x, NoRune, false);
    } else if x[0] == '/' && |x| > 1 && x[1] == '*' {
      StepBlock(x, NoRune, false);
      BlockEnds(x[2..]);
    } else if IsQuote(x[0]) {
      StepString(x, NoRune, false);
      assert x[1 + StringLength(x[1..], x[0])..] == "";
      StringEnds(x[1..], x[0]);
    } else {
      StepOther(x, NoRune, false);
    }
  }

  lemma KeptCons(x: string)
    requires EndsWell(x)
    ensures var t := Step(x, NoRune, false);
      Kept(x) == t.text + Kept(t.rest) && (t.rest != "" ==> EndsWell(t.rest) && t.rest[|t.rest| - 1] == x[|x| - 1])
  {
    hide Step, FirstCloses;
    RestEnds(x, NoRune, false);
  }

  lemma {:induction false} KeptEnds(x: string)
    requires EndsWell(x)
    ensures Kept(x) != "" && Kept(x)[|Kept(x)| - 1] == x[|x| - 1]
    decreases |x|
  {
    assert x != "";
    hide Step, EndsWell, Kept;
    var t := Step(x, NoRune, false);
    KeptCons(x);
    if t.rest == "" {
      LastPiece(x);
      NothingKept();
    } else {
      KeptEnds(t.rest);
    }
  }

  lemma NothingKept()
    ensures Kept("") == ""
  {
  }

  lemma {:induction false} ReplaceEnds(s: string)
    requires s != ""
    ensures var r := ReplaceAll(s, ";}", "}"); r != "" && r[|r| - 1] == s[|s| - 1]
  {
    if ";}" <= s {
      if |s| > 2 { ReplaceEnds(s[2..]); }
    } else if |s| > 1 {
      ReplaceEnds(s[1..]);
    }
  }

  lemma {:induction false} ReplaceThen(s: string, more: string)
    requires more != "" && more[0] != '}'
    ensures ReplaceAll(s + more, ";}", "}") == ReplaceAll(s, ";}", "}") + ReplaceAll(more, ";}", "}")
  {
    if s == "" {
      assert s + more == more;
    } else {
      StartsSemiBrace(s);
      StartsSemiBrace(s + more);
      assert (s + more)[1..] == s[1..] + more;
      if ";}" <= s {
        assert (s + more)[2..] == s[2..] + more;
        ReplaceThen(s[2..], more);
      } else {
        ReplaceThen(s[1..], more);
      }
    }
  }

  /** An ending without separators or braces is left as it is. */
  lemma FinishThen(s: string, more: string)
    requires s != "" && s[|s| - 1] != ';' && more != "" && ';' !in more && more[0] != '}'
    ensures Finish(s + more) == Finish(s) + more
    ensures Finish(s) != "" && Finish(s)[|Finish(s)| - 1] == s[|s| - 1]
  {
    ReplaceEnds(s);
    ReplaceThen(s, more);
    LacksIn(more);
    ReplaceKeeps(more, "");
    assert more + "" == more && more[|more| - 1] in more;
    hide ReplaceAll;
  }

  lemma ScanWordNull()
    ensures Scan("null", '|', true) == "null"
  {
    assert Scan("", 'l', false) == "";
    hide Scan;
    ScanCopied("null", "", '|', true);
    assert "null" + "" == "null" && "" + "null" + "" == "null";
  }

  lemma ScanNull(prev: char, pending: bool)
    ensures Scan(" | null", prev, pending) == "|null"
  {
    hide Scan;
    var bar, blank := ['|'] + ([' '] + "null"), [' '] + "null";
    ScanSpace(' ', bar, prev, pending);
    ScanOne('|', blank, prev, true);
    ScanSpace(' ', "null", '|', false);
    ScanWordNull();
    hide *;
    assert [' '] + bar == " | null";
    assert "" + ['|'] + "null" == "|null";
  }

  lemma CanonicalEnds(x: string)
    requires EndsWell(x)
    ensures CanonicalTS(x) == Finish(Scan(x, NoRune, false)) && CanonicalTS(x) != ""
    ensures CanonicalTS(x)[|CanonicalTS(x)| - 1] == x[|x| - 1]
  {
    hide Scan, Finish, IsClosed;
    KeptEnds(x);
    ScanEnds(x, NoRune, false);
    FinishThen(Scan(x, NoRune, false), "|null");
  }

  /** Null added to a text is null added to its comparison form. */
  lemma CanonicalNull(x: string)
    requires EndsWell(x)
    ensures CanonicalTS(x + " | null") == CanonicalTS(x) + "|null"
  {
    hide Scan, Finish, IsClosed;
    KeptEnds(x);
    ScanEnds(x, NoRune, false);
    ScanAppend(x, " | null", NoRune, false);
    ScanNull(StateAfter(x, NoRune, false).0, StateAfter(x, NoRune, false).1);
    FinishThen(Scan(x, NoRune, false), "|null");
  }

  // -------------------------------------------------------------- what is never closed

  /** Nothing here closes a comment or a string, or escapes. */
  predicate IsInert(x: string) {
    x != "" && forall c :: c in x ==> !IsQuote(c) && c != '/' && c != '*' && c != '\n' && c != '\\'
  }

  /** What is open at the end is a string, whose runes are copied. */
  predicate EndsInString(s: string)
    decreases |s|
  {
    s != "" && if FirstCloses(s) then EndsInString(Step(s, NoRune, false).rest) else IsQuote(s[0])
  }

  /** What the scanner writes up to what is never closed, and of it. */
  function OpenText(s: string, prev: char, pending: bool): string
    decreases |s|
  {
    if s == "" then ""
    else if FirstCloses(s) then
      var t := Step(s, prev, pending);
      t.text + OpenText(t.rest, t.prev, t.pending)
    else if IsQuote(s[0]) then s
    else ""
  }

  lemma {:induction false} LineOpen(s: string, more: string)
    requires AfterLine(s) == "" && IsInert(more)
    ensures AfterLine(s + more) == ""
  {
    if s == "" {
      assert s + more == more;
      LineInert(more);
    } else {
      assert (s + more)[1..] == s[1..] + more;
      LineOpen(s[1..], more);
    }
  }

  lemma {:induction false} LineInert(x: string)
    requires '\n' !in x
    ensures AfterLine(x) == ""
  {
    if x != "" { LineInert(x[1..]); }
  }

  lemma {:induction false} BlockOpen(s: string, more: string)
    requires !BlockCloses(s) && IsInert(more)
    ensures AfterBlock(s + more) == ""
  {
    if s == "" {
      assert s + more == more;
      BlockInert(more);
    } else {
      assert (s + more)[1..] == s[1..] + more;
      assert |s| == 1 ==> (s + more)[1] in more;
      BlockOpen(s[1..], more);
    }
  }

  lemma {:induction false} BlockInert(x: string)
    requires '/' !in x
    ensures AfterBlock(x) == ""
  {
    if |x| >= 2 { BlockInert(x[1..]); }
  }

  lemma {:induction false} StringOpen(s: string, q: char, more: string)
    requires !StringCloses(s, q) && IsQuote(q) && IsInert(more)
    ensures StringLength(s + more, q) == |s + more|
  {
    if s == "" {
      assert s + more == more;
      StringInert(more, q);
    } else if s[0] == '\\' {
      if |s| == 1 {
        assert (s + more)[2..] == more[1..];
        StringInert(more[1..], q);
      } else {
        assert (s + more)[2..] == s[2..] + more;
        StringOpen(s[2..], q, more);
      }
    } else {
      assert (s + more)[1..] == s[1..] + more;
      StringOpen(s[1..], q, more);
    }
  }

  lemma {:induction false} StringInert(x: string, q: char)
    requires IsQuote(q) && forall c :: c in x ==> !IsQuote(c) && c != '\\'
    ensures StringLength(x, q) == |x|
  {
    if x != "" {
      assert x[0] in x;
      StringInert(x[1..], q);
    }
  }

  lemma OpenStep(s: string, more: string, prev: char, pending: bool)
    requires s != "" && !FirstCloses(s) && IsInert(more)
    ensures Scan(s + more, prev, pending) == if IsQuote(s[0]) then s + more else ""
  {
    hide Step, StringLength, AfterLine, AfterBlock, StringCloses, BlockCloses, IsInert;
    var all, c := s + more, s[0];
    assert all[0] == c && all[1..] == s[1..] + more;
    assert |s| > 1 ==> all[1] == s[1] && all[2..] == s[2..] + more;
    if IsQuote(c) {
      StringOpen(s[1..], c, more);
      StepString(all, prev, pending);
      assert all[..|all|] == all && all[|all|..] == "" && all + "" == all;
    } else if s[1] == '/' {
      LineOpen(s[2..], more);
      StepLine(all, prev, pending);
    } else {
      BlockOpen(s[2..], more);
      StepBlock(all, prev, pending);
    }
  }

  lemma {:induction false} OpenScan(s: string, more: string, prev: char, pending: bool)
    requires !IsClosed(s) && IsInert(more)
    ensures Scan(s + more, prev, pending) == OpenText(s, prev, pending) + if EndsInString(s) then more else ""
    decreases |s|
  {
    hide Step, FirstCloses;
    if !FirstCloses(s) {
      OpenStep(s, more, prev, pending);
    } else {
      var t := Step(s, prev, pending);
      assert more[0] in more;
      StepAnywhere(s, prev, pending);
      StepAppend(s, more, prev, pending);
      OpenScan(t.rest, more, t.prev, t.pending);
    }
  }
}

/**
 What the comparison form keeps of a type expression: everything but layout and
 dangling separators, so that two expressions share a form exactly when their
 tokens agree.
 */
module CanonicalForms {
  import opened Text
  import opened Canonical

  /** No `;}` in the text. */
  predicate LacksSemiBrace(s: string) {
    |s| < 2 || (!(s[0] == ';' && s[1] == '}') && LacksSemiBrace(s[1..]))
  }

  predicate IsClean(t: Token) {
    IsToken(t) && (t.Literal? ==> LacksSemiBrace(t.body))
  }

  predicate AreClean(ts: seq<Token>) {
    ts == [] || (IsClean(ts[0]) && AreClean(ts[1..]))
  }

  predicate IsSeparator(t: Token) {
    t == Mark(';') || t == Mark(',')
  }

  /** A separator that closes its list: nothing follows it but a brace or the end. */
  predicate DanglesFirst(ts: seq<Token>) {
    ts != [] && IsSeparator(ts[0]) && (|ts| == 1 || ts[1] == Mark('}'))
  }

  predicate Dangles(ts: seq<Token>) {
    ts != [] && (DanglesFirst(ts) || Dangles(ts[1..]))
  }

  /** Two separators where one would dangle: a list that ends in an empty member. */
  predicate EndsInEmptyMember(ts: seq<Token>) {
    |ts| >= 2 && ((IsSeparator(ts[0]) && DanglesFirst(ts[1..])) || EndsInEmptyMember(ts[1..]))
  }

  /** Separators folded onto semicolons, the dangling ones gone. */
  function Norm(ts: seq<Token>): (r: seq<Token>)
    ensures |r| <= |ts|
  {
    if ts == [] then []
    else if DanglesFirst(ts) then Norm(ts[1..])
    else [FoldToken(ts[0])] + Norm(ts[1..])
  }

  // ------------------------------------------------- the text of a normal form

  lemma StartsSemiBrace(s: string)
    ensures ";}" <= s <==> |s| > 1 && s[0] == ';' && s[1] == '}'
  {
    assert |s| > 1 ==> s[..2] == [s[0], s[1]];
  }

  lemma ReplaceCopies(c: char, rest: string)
    requires !(c == ';' && rest != "" && rest[0] == '}')
    ensures ReplaceAll([c] + rest, ";}", "}") == [c] + ReplaceAll(rest, ";}", "}")
  {
    StartsSemiBrace([c] + rest);
    assert ([c] + rest)[1..] == rest;
  }

  lemma {:induction false} ReplaceKeeps(a: string, b: string)
    requires LacksSemiBrace(a) && !(a != "" && a[|a| - 1] == ';' && b != "" && b[0] == '}')
    ensures ReplaceAll(a + b, ";}", "}") == a + ReplaceAll(b, ";}", "}")
  {
    if a == "" {
      assert a + b == b;
    } else {
      hide ReplaceAll;
      assert a + b == [a[0]] + (a[1..] + b);
      assert a == [a[0]] + a[1..];
      ReplaceKeeps(a[1..], b);
      ReplaceCopies(a[0], a[1..] + b);
    }
  }

  lemma {:induction false} ReplaceKeepsNonEmpty(b: string)
    ensures ReplaceAll(b, ";}", "}") == "" <==> b == ""
  {
  }

  lemma TrimKeeps(a: string, r: string)
    requires a != "" && (r == "" ==> a[|a| - 1] != ';')
    ensures TrimSuffix(a + r, ";") == a + TrimSuffix(r, ";")
  {
    var s := a + r;
    if r == "" {
      assert s[|s| - 1..] == [a[|a| - 1]];
    } else {
      assert s[|s| - 1..] == r[|r| - 1..];
      assert s[..|s| - 1] == a + r[..|r| - 1];
    }
  }

  lemma FinishKeeps(a: string, b: string)
    requires a != "" && LacksSemiBrace(a)
    requires a[|a| - 1] == ';' ==> b != "" && b[0] != '}'
    ensures Finish(a + b) == a + Finish(b)
  {
    ReplaceKeeps(a, b);
    ReplaceKeepsNonEmpty(b);
    TrimKeeps(a, ReplaceAll(b, ";}", "}"));
  }

  lemma FinishDrops(b: string)
    requires b == "" || b[0] == '}'
    ensures Finish(";" + b) == Finish(b)
  {
    if b == "" {
      assert ReplaceAll(";", ";}", "}") == ";" + ReplaceAll("", ";}", "}");
      assert HasSuffix(";", ";");
    } else {
      var s := ";" + b;
      assert ";}" <= s && s[2..] == b[1..];
      assert !(";}" <= b);
    }
  }

  lemma {:induction false} LacksAround(q: char, body: string)
    requires LacksSemiBrace(body) && q != ';' && q != '}'
    ensures LacksSemiBrace([q] + body + [q])
  {
    LacksBefore(body, q);
    assert ([q] + body + [q])[1..] == body + [q];
  }

  lemma {:induction false} LacksBefore(body: string, q: char)
    requires LacksSemiBrace(body) && q != '}'
    ensures LacksSemiBrace(body + [q])
  {
    if body != "" {
      assert (body + [q])[1..] == body[1..] + [q];
      LacksBefore(body[1..], q);
    }
  }

  lemma {:induction false} LacksIn(text: string)
    requires ';' !in text
    ensures LacksSemiBrace(text)
  {
    if text != "" { LacksIn(text[1..]); }
  }

  lemma TokenText(t: Token)
    requires IsClean(t)
    ensures Folded(t) != "" && LacksSemiBrace(Folded(t))
    ensures Folded(t)[|Folded(t)| - 1] == ';' <==> IsSeparator(t)
    ensures Folded(t)[0] == '}' <==> t == Mark('}')
  {
    match t
    case Word(text) =>
      LacksIn(text);
      assert text[0] in text && text[|text| - 1] in text;
    case Mark(c) =>
    case Literal(q, body) => LacksAround(q, body);
  }

  lemma RenderCons(ts: seq<Token>, afterWord: bool)
    requires ts != []
    ensures Render(Fold(ts), afterWord)
         == (if afterWord && ts[0].Word? then " " else "") + Spelling(FoldToken(ts[0])) + Render(Fold(ts[1..]), ts[0].Word?)
  {
    assert Fold(ts)[1..] == Fold(ts[1..]);
  }

  lemma RenderStarts(ts: seq<Token>, afterWord: bool)
    requires AreClean(ts)
    ensures Render(Fold(ts), afterWord) == "" <==> ts == []
    ensures ts != [] ==> (Render(Fold(ts), afterWord)[0] == '}' <==> ts[0] == Mark('}'))
  {
    if ts != [] {
      RenderCons(ts, afterWord);
      TokenText(ts[0]);
    }
  }

  lemma SeparatorSpelling(t: Token)
    requires IsSeparator(t)
    ensures Spelling(FoldToken(t)) == ";" && !t.Word?
  {
  }

  lemma DanglingFirst(ts: seq<Token>, afterWord: bool)
    requires DanglesFirst(ts)
    ensures Render(Fold(ts), afterWord) == ";" + Render(Fold(ts[1..]), ts[0].Word?)
  {
    hide Render, Fold, Spelling, FoldToken;
    SeparatorSpelling(ts[0]);
    RenderCons(ts, afterWord);
    var tail := Render(Fold(ts[1..]), false);
    assert "" + ";" + tail == ";" + tail;
  }

  lemma NormFirst(ts: seq<Token>, afterWord: bool)
    requires ts != [] && !DanglesFirst(ts)
    ensures Render(Norm(ts), afterWord)
         == (if afterWord && ts[0].Word? then " " else "") + Spelling(FoldToken(ts[0])) + Render(Norm(ts[1..]), ts[0].Word?)
  {
    hide Spelling;
    assert Norm(ts) == [FoldToken(ts[0])] + Norm(ts[1..]);
    assert Norm(ts)[1..] == Norm(ts[1..]);
  }

  lemma {:induction false} FinishRender(ts: seq<Token>, afterWord: bool)
    requires AreClean(ts)
    ensures Finish(Render(Fold(ts), afterWord)) == Render(Norm(ts), afterWord)
  {
    if ts != [] {
      var t, tail := ts[0], Render(Fold(ts[1..]), ts[0].Word?);
      RenderCons(ts, afterWord);
      RenderStarts(ts[1..], t.Word?);
      TokenText(t);
      FinishRender(ts[1..], t.Word?);
      hide Finish, LacksSemiBrace;
      if DanglesFirst(ts) {
        DanglingFirst(ts, afterWord);
        FinishDrops(tail);
        BraceIgnoresWord(ts[1..], afterWord);
        assert Norm(ts) == Norm(ts[1..]);
      } else {
        var head := (if afterWord && t.Word? then " " else "") + Spelling(FoldToken(t));
        HeadLacks(t, afterWord);
        FinishKeeps(head, tail);
        NormFirst(ts, afterWord);
        hide *;
      }
    }
  }

  lemma HeadLacks(t: Token, afterWord: bool)
    requires IsClean(t)
    ensures var head := (if afterWord && t.Word? then " " else "") + Spelling(FoldToken(t));
      && head != "" && LacksSemiBrace(head) && (head[|head| - 1] == ';' <==> IsSeparator(t))
  {
    TokenText(t);
    LacksAfterBlank(Spelling(FoldToken(t)));
  }

  lemma LacksAfterBlank(text: string)
    requires text != "" && LacksSemiBrace(text)
    ensures LacksSemiBrace(" " + text) && (" " + text)[|text|] == text[|text| - 1] && "" + text == text
  {
    assert (" " + text)[1..] == text;
  }

  lemma BraceIgnoresWord(ts: seq<Token>, afterWord: bool)
    requires ts == [] || ts[0] == Mark('}')
    ensures Render(Norm(ts), false) == Render(Norm(ts), afterWord)
  {
  }

  // ------------------------------------------------------- reading a form back

  /** The length of the run of word runes a text starts with. */
  function WordRun(s: string): nat {
    if s == "" || !IsWord(s[0]) then 0 else 1 + WordRun(s[1..])
  }

  lemma {:induction false} WordRunIs(text: string, rest: string)
    requires forall c :: c in text ==> IsWord(c)
    requires rest == "" || !IsWord(rest[0])
    ensures WordRun(text + rest) == |text|
  {
    if text == "" {
      assert text + rest == rest;
    } else {
      assert (text + rest)[1..] == text[1..] + rest;
      WordRunIs(text[1..], rest);
    }
  }

  /** The first token of a rendering and the rendering of the others, read off the text. */
  function FirstLength(s: string): nat
    requires s != ""
  {
    if IsWord(s[0]) then WordRun(s)
    else if IsQuote(s[0]) then 1 + StringLength(s[1..], s[0])
    else 1
  }

  lemma RestStartsNoWord(ts: seq<Token>, afterWord: bool)
    requires AreTokens(ts)
    ensures afterWord ==> Render(ts, afterWord) == "" || !IsWord(Render(ts, afterWord)[0])
  {
    if ts != [] {
      FirstRune(ts[0]);
    }
  }

  lemma FirstLengthOf(t: Token, rest: string)
    requires IsToken(t) && (t.Word? ==> rest == "" || !IsWord(rest[0]))
    ensures Spelling(t) != "" && FirstLength(Spelling(t) + rest) == |Spelling(t)|
  {
    hide StringLength, WordRun, Terminated;
    FirstRune(t);
    assert (Spelling(t) + rest)[0] == Spelling(t)[0];
    match t
    case Word(text) =>
      WordRunIs(text, rest);
    case Mark(c) =>
    case Literal(q, body) =>
      StringLengthCloses(body, q, rest);
      assert ([q] + body + [q] + rest)[1..] == body + [q] + rest;
  }

  lemma FirstLengthIs(ts: seq<Token>)
    requires AreTokens(ts) && ts != []
    ensures Render(ts, false) != "" && FirstLength(Render(ts, false)) == |Spelling(ts[0])|
  {
    hide FirstLength, IsToken, Spelling, IsWord;
    var rest := Render(ts[1..], ts[0].Word?);
    assert Render(ts, false) == "" + Spelling(ts[0]) + rest;
    RestStartsNoWord(ts[1..], ts[0].Word?);
    hide Render;
    FirstLengthOf(ts[0], rest);
    assert "" + Spelling(ts[0]) + rest == Spelling(ts[0]) + rest;
  }

  /** What a non-empty rendering after no word starts with, and how it goes on. */
  lemma RenderSplit(ts: seq<Token>)
    requires AreTokens(ts) && ts != []
    ensures var s, n := Render(ts, false), |Spelling(ts[0])|;
      && 0 < n <= |s| && s[0] != ' ' && s[..n] == Spelling(ts[0]) && s[n..] == Render(ts[1..], ts[0].Word?)
  {
    hide *;
    TokenLeads(ts);
    AppendSplits(Spelling(ts[0]), Render(ts[1..], ts[0].Word?));
  }

  lemma TokenLeads(ts: seq<Token>)
    requires AreTokens(ts) && ts != []
    ensures Render(ts, false) == Spelling(ts[0]) + Render(ts[1..], ts[0].Word?)
    ensures Spelling(ts[0]) != "" && Spelling(ts[0])[0] != ' '
  {
    hide IsToken, Spelling, IsWord;
    FirstRune(ts[0]);
    var a, b := Spelling(ts[0]), Render(ts[1..], ts[0].Word?);
    assert Render(ts, false) == "" + a + b;
    hide Render;
    assert "" + a + b == a + b;
  }

  lemma BlankCancels(blank: bool, s: string, blank': bool, s': string)
    requires (s != "" ==> s[0] != ' ') && (s' != "" ==> s'[0] != ' ')
    requires (if blank then " " else "") + s == (if blank' then " " else "") + s'
    ensures s == s'
  {
    var all := (if blank then " " else "") + s;
    assert s == if blank then all[1..] else all;
    assert s' == if blank' then all[1..] else all;
    assert blank ==> all[0] == ' ';
    assert blank' ==> all[0] == ' ';
  }

  /** Whether a blank leads is settled by the first token, so it can be dropped. */
  lemma DropBlank(ts: seq<Token>, ts': seq<Token>)
    requires AreTokens(ts) && AreTokens(ts') && Render(ts, true) == Render(ts', true)
    ensures Render(ts, false) == Render(ts', false)
  {
    BlankLeads(ts);
    BlankLeads(ts');
    BlankCancels(ts != [] && ts[0].Word?, Render(ts, false), ts' != [] && ts'[0].Word?, Render(ts', false));
  }

  lemma BlankLeads(ts: seq<Token>)
    requires AreTokens(ts)
    ensures Render(ts, true) == (if ts != [] && ts[0].Word? then " " else "") + Render(ts, false)
    ensures Render(ts, false) != "" ==> Render(ts, false)[0] != ' '
  {
    if ts == [] {
      assert "" + Render(ts, false) == "";
    } else {
      RenderAfterWord(ts);
      RenderSplit(ts);
    }
  }

  lemma FirstIsSame(ts: seq<Token>, ts': seq<Token>)
    requires AreTokens(ts) && AreTokens(ts') && ts != [] && ts' != []
    requires Render(ts, false) == Render(ts', false)
    ensures ts[0] == ts'[0] && Render(ts[1..], ts[0].Word?) == Render(ts'[1..], ts'[0].Word?)
  {
    RenderSplit(ts);
    RenderSplit(ts');
    FirstLengthIs(ts);
    FirstLengthIs(ts');
    hide Render, Spelling, FirstLength;
    SpellingInjective(ts[0], ts'[0]);
  }

  lemma {:induction false} RenderInjective(ts: seq<Token>, ts': seq<Token>, afterWord: bool)
    requires AreTokens(ts) && AreTokens(ts')
    requires Render(ts, afterWord) == Render(ts', afterWord)
    ensures ts == ts'
  {
    hide Spelling, IsToken;
    if afterWord { DropBlank(ts, ts'); }
    if ts != [] { RenderSplit(ts); }
    if ts' != [] { RenderSplit(ts'); }
    if ts != [] && ts' != [] {
      FirstIsSame(ts, ts');
      RenderInjective(ts[1..], ts'[1..], ts[0].Word?);
      assert ts == [ts[0]] + ts[1..] && ts' == [ts'[0]] + ts'[1..];
    }
  }

  lemma RenderAfterWord(ts: seq<Token>)
    requires ts != []
    ensures Render(ts, true) == (if ts[0].Word? then " " else "") + Render(ts, false)
  {
    hide Spelling;
    var rest := Render(ts[1..], ts[0].Word?);
    assert "" + Spelling(ts[0]) + rest == Spelling(ts[0]) + rest;
    assert " " + Spelling(ts[0]) + rest == " " + (Spelling(ts[0]) + rest);
  }

  /** The first rune says which kind of token it starts. */
  lemma FirstRune(t: Token)
    requires IsToken(t)
    ensures Spelling(t) != "" && Spelling(t)[0] != ' '
    ensures IsWord(Spelling(t)[0]) <==> t.Word?
    ensures IsQuote(Spelling(t)[0]) <==> t.Literal?
  {
    if t.Word? { assert t.text[0] in t.text; }
  }

  lemma SpellingInjective(t: Token, t': Token)
    requires IsToken(t) && IsToken(t') && Spelling(t) == Spelling(t')
    ensures t == t'
  {
    var s := Spelling(t);
    FirstRune(t);
    FirstRune(t');
    if t.Literal? {
      assert s[1..|s| - 1] == t.body == t'.body;
    }
  }

  // -------------------------------------------------------------- main results

  lemma {:induction false} NormIsTokens(ts: seq<Token>)
    requires AreClean(ts)
    ensures AreTokens(Norm(ts)) && AreClean(Norm(ts))
  {
    if ts != [] {
      NormIsTokens(ts[1..]);
    }
  }

  /** The comparison form is the rendering of the normal form. */
  lemma CanonicalIsNorm(layout: seq<Placed>, after: seq<Filler>, open: string)
    requires IsLayout(layout, false) && IsEnding(after, open) && AreClean(Tokens(layout))
    ensures CanonicalTS(LayoutText(layout, after, open)) == Render(Norm(Tokens(layout)), false)
  {
    CanonicalOfLayout(layout, after, open);
    FinishRender(Tokens(layout), false);
  }

  /** Two type expressions compare equal exactly when their tokens agree. */
  lemma SameFormIff(
    layout: seq<Placed>, after: seq<Filler>, open: string,
    layout': seq<Placed>, after': seq<Filler>, open': string)
    requires IsLayout(layout, false) && IsEnding(after, open) && AreClean(Tokens(layout))
    requires IsLayout(layout', false) && IsEnding(after', open') && AreClean(Tokens(layout'))
    ensures CanonicalTS(LayoutText(layout, after, open)) == CanonicalTS(LayoutText(layout', after', open'))
       <==> Norm(Tokens(layout)) == Norm(Tokens(layout'))
  {
    CanonicalIsNorm(layout, after, open);
    CanonicalIsNorm(layout', after', open');
    NormIsTokens(Tokens(layout));
    NormIsTokens(Tokens(layout'));
    if Render(Norm(Tokens(layout)), false) == Render(Norm(Tokens(layout')), false) {
      RenderInjective(Norm(Tokens(layout)), Norm(Tokens(layout')), false);
    }
  }

  /** A rendering is itself a layout: one blank between two words, nothing elsewhere. */
  function Tight(ts: seq<Token>, afterWord: bool): (layout: seq<Placed>)
    ensures |layout| == |ts|
  {
    if ts == [] then []
    else [Placed(if afterWord && ts[0].Word? then [Space(' ')] else [], ts[0])] + Tight(ts[1..], ts[0].Word?)
  }

  lemma {:induction false} TightIsLayout(ts: seq<Token>, afterWord: bool)
    requires AreTokens(ts)
    ensures IsLayout(Tight(ts, afterWord), afterWord)
    ensures Tokens(Tight(ts, afterWord)) == ts
    ensures LayoutText(Tight(ts, afterWord), [], "") == Render(ts, afterWord)
  {
    if ts != [] {
      TightIsLayout(ts[1..], ts[0].Word?);
      var before := Tight(ts, afterWord)[0].before;
      assert FillersText([Space(' ')]) == " ";
      assert FillersText(before) == if afterWord && ts[0].Word? then " " else "";
      assert ts == [ts[0]] + ts[1..];
    }
  }

  lemma {:induction false} NormShrinksIff(ts: seq<Token>)
    ensures |Norm(ts)| == |ts| <==> !Dangles(ts)
  {
    if ts != [] { NormShrinksIff(ts[1..]); }
  }

  lemma {:induction false} NormKeepsFolded(ts: seq<Token>)
    requires !Dangles(ts) && Mark(',') !in ts
    ensures Norm(ts) == ts
  {
    if ts != [] {
      NormKeepsFolded(ts[1..]);
      assert ts == [ts[0]] + ts[1..];
    }
  }

  lemma {:induction false} NormHasNoComma(ts: seq<Token>)
    ensures Mark(',') !in Norm(ts)
  {
    if ts != [] { NormHasNoComma(ts[1..]); }
  }

  lemma {:induction false} NormDanglesIff(ts: seq<Token>)
    ensures Dangles(Norm(ts)) <==> EndsInEmptyMember(ts)
  {
    if ts != [] {
      NormDanglesIff(ts[1..]);
      var tail := Norm(ts[1..]);
      if !DanglesFirst(ts) {
        assert Norm(ts) == [FoldToken(ts[0])] + tail;
        assert Norm(ts)[1..] == tail;
        if IsSeparator(ts[0]) {
          assert ts[1] != Mark('}');
          if DanglesFirst(ts[1..]) {
            assert tail == Norm(ts[2..]);
          } else {
            assert tail == [FoldToken(ts[1])] + Norm(ts[2..]);
          }
        }
      }
    }
  }

  /**
   The comparison form is its own comparison form exactly when no list ends in an
   empty member.
   */
  lemma IdempotentIff(layout: seq<Placed>, after: seq<Filler>, open: string)
    requires IsLayout(layout, false) && IsEnding(after, open) && AreClean(Tokens(layout))
    ensures var form := CanonicalTS(LayoutText(layout, after, open));
      CanonicalTS(form) == form <==> !EndsInEmptyMember(Tokens(layout))
  {
    var norm := Norm(Tokens(layout));
    CanonicalIsNorm(layout, after, open);
    NormIsTokens(Tokens(layout));
    TightIsLayout(norm, false);
    CanonicalIsNorm(Tight(norm, false), [], "");
    NormDanglesIff(Tokens(layout));
    NormShrinksIff(norm);
    NormHasNoComma(Tokens(layout));
    if Dangles(norm) {
      NormIsTokens(norm);
      if Render(Norm(norm), false) == Render(norm, false) {
        RenderInjective(Norm(norm), norm, false);
      }
    } else {
      NormKeepsFolded(norm);
    }
  }
}

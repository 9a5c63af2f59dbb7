/**
 internal/types/canonical.go: the comparison form of a TypeScript type.

 Scan is one pass of CanonicalTS's loop over what is left of the text, given the
 last rune written and whether a gap is owed; the method at the end of the file
 is the loop itself, proved to compute it.
 */
module Canonical {
  import opened Text

  predicate IsSpace(c: char) {
    c == ' ' || c == '\t' || c == '\n' || c == '\r' || c == '\U{000C}' || c == '\U{000B}'
  }

  predicate IsWord(c: char) {
    c == '_' || c == '$' || 'a' <= c <= 'z' || 'A' <= c <= 'Z' || '0' <= c <= '9'
  }

  predicate IsQuote(c: char) {
    c == '"' || c == '\'' || c == '`'
  }

  /** The zero rune `prev` starts at. */
  const NoRune: char := '\0'

  /** What `write` emits before c. */
  function Gap(prev: char, pending: bool, c: char): string {
    if pending && IsWord(prev) && IsWord(c) then " " else ""
  }

  /** What follows a line comment: the text from its newline on. */
  function AfterLine(s: string): (rest: string)
    ensures |rest| <= |s|
  {
    if s == "" || s[0] == '\n' then s else AfterLine(s[1..])
  }

  /** What follows a block comment; nothing when it is never closed. */
  function AfterBlock(s: string): (rest: string)
    ensures |rest| <= |s|
  {
    if |s| < 2 then ""
    else if s[0] == '*' && s[1] == '/' then s[2..]
    else AfterBlock(s[1..])
  }

  /** How many runes after an opening quote q belong to the string. */
  function StringLength(s: string, q: char): (n: nat)
    ensures n <= |s|
  {
    if s == "" then 0
    else if s[0] == '\\' && |s| > 1 then 2 + StringLength(s[2..], q)
    else if s[0] == q then 1
    else 1 + StringLength(s[1..], q)
  }

  /** One turn of the loop: what it writes, what is left, and the two variables. */
  datatype Turn = Turn(text: string, rest: string, prev: char, pending: bool)

  function Step(s: string, prev: char, pending: bool): (t: Turn)
    requires s != ""
    ensures |t.rest| < |s|
  {
    var c := s[0];
    if c == '/' && |s| > 1 && s[1] == '/' then Turn("", AfterLine(s[2..]), prev, true)
    else if c == '/' && |s| > 1 && s[1] == '*' then Turn("", AfterBlock(s[2..]), prev, true)
    else if IsQuote(c) then
      var n := StringLength(s[1..], c);
      Turn(Gap(prev, pending, c) + s[..1 + n], s[1 + n..], s[n], false)
    else if c == ',' then Turn(Gap(prev, pending, ';') + ";", s[1..], ';', false)
    else if IsSpace(c) then Turn("", s[1..], prev, true)
    else Turn(Gap(prev, pending, c) + [c], s[1..], c, false)
  }

  function Scan(s: string, prev: char, pending: bool): string
    decreases |s|
  {
    if s == "" then ""
    else
      var t := Step(s, prev, pending);
      t.text + Scan(t.rest, t.prev, t.pending)
  }

  function Finish(s: string): string {
    TrimSuffix(ReplaceAll(s, ";}", "}"), ";")
  }

  function CanonicalTS(s: string): string {
    Finish(Scan(s, NoRune, false))
  }

  // ---------------------------------------------------------------- tokens

  // The language's own characters, which the scanner's tests have to agree with.

  /** Space, tab, line feed, carriage return, form feed and vertical tab. */
  const BLANKS := {' ', '\t', '\n', '\r', '\U{000C}', '\U{000B}'}

  const DELIMITERS := {'"', '\'', '`'}

  /** What names and numbers are written with. */
  predicate IsNameRune(c: char) {
    '0' <= c <= '9' || 'A' <= c <= 'Z' || c == '_' || 'a' <= c <= 'z' || c == '$'
  }

  /** The lexemes a type expression is made of. */
  datatype Token =
    | Word(text: string)
    | Mark(c: char)
    | Literal(quote: char, body: string)

  /** The body closes exactly at the quote that follows it. */
  predicate Terminated(body: string, q: char) {
    body == "" ||
    if body[0] == '\\' then |body| > 1 && Terminated(body[2..], q)
    else body[0] != q && Terminated(body[1..], q)
  }

  predicate IsToken(t: Token) {
    match t
    case Word(text) => text != "" && forall c :: c in text ==> IsNameRune(c)
    case Mark(c) => !IsNameRune(c) && c !in BLANKS && c !in DELIMITERS && c != '/'
    case Literal(q, body) => q in DELIMITERS && Terminated(body, q)
  }

  predicate AreTokens(ts: seq<Token>) {
    ts == [] || (IsToken(ts[0]) && AreTokens(ts[1..]))
  }

  function Spelling(t: Token): string {
    match t
    case Word(text) => text
    case Mark(c) => [c]
    case Literal(q, body) => [q] + body + [q]
  }

  /** What may stand between two tokens. */
  datatype Filler =
    | Space(c: char)
    | LineComment(text: string)
    | BlockComment(text: string)

  predicate HasBlockEnd(s: string) {
    |s| >= 2 && ((s[0] == '*' && s[1] == '/') || HasBlockEnd(s[1..]))
  }

  predicate IsFiller(f: Filler) {
    match f
    case Space(c) => c in BLANKS
    case LineComment(text) => '\n' !in text
    case BlockComment(text) => !HasBlockEnd(text)
  }

  function FillerText(f: Filler): string {
    match f
    case Space(c) => [c]
    case LineComment(text) => "//" + text + "\n"
    case BlockComment(text) => "/*" + text + "*/"
  }

  predicate AreFillers(fs: seq<Filler>) {
    fs == [] || (IsFiller(fs[0]) && AreFillers(fs[1..]))
  }

  function FillersText(fs: seq<Filler>): string {
    if fs == [] then "" else FillerText(fs[0]) + FillersText(fs[1..])
  }

  /** One way to write a token sequence down: a token after the filler before it. */
  datatype Placed = Placed(before: seq<Filler>, token: Token)

  function Tokens(layout: seq<Placed>): (ts: seq<Token>)
    ensures |ts| == |layout|
  {
    if layout == [] then [] else [layout[0].token] + Tokens(layout[1..])
  }

  /** Two words need something between them, or they are one word. */
  predicate IsLayout(layout: seq<Placed>, afterWord: bool) {
    layout == [] ||
    (AreFillers(layout[0].before) && IsToken(layout[0].token) &&
     (afterWord && layout[0].token.Word? ==> layout[0].before != []) &&
     IsLayout(layout[1..], layout[0].token.Word?))
  }

  /** The text, ending in `after` and perhaps a line comment no newline closes. */
  function LayoutText(layout: seq<Placed>, after: seq<Filler>, open: string): string {
    if layout == [] then FillersText(after) + open
    else FillersText(layout[0].before) + Spelling(layout[0].token) + LayoutText(layout[1..], after, open)
  }

  predicate IsEnding(after: seq<Filler>, open: string) {
    AreFillers(after) && (open == "" || ("//" <= open && '\n' !in open))
  }

  /** Commas and semicolons separate alike. */
  function FoldToken(t: Token): Token {
    if t == Mark(',') then Mark(';') else t
  }

  function Fold(ts: seq<Token>): (r: seq<Token>)
    ensures |r| == |ts|
  {
    if ts == [] then [] else [FoldToken(ts[0])] + Fold(ts[1..])
  }

  /** Tokens written with nothing between them but one blank between two words. */
  function Render(ts: seq<Token>, afterWord: bool): string {
    if ts == [] then ""
    else (if afterWord && ts[0].Word? then " " else "") + Spelling(ts[0]) + Render(ts[1..], ts[0].Word?)
  }

  // ---------------------------------------------- scanning follows the layout

  lemma {:induction false} AfterLineSkips(text: string, rest: string)
    requires '\n' !in text
    ensures AfterLine(text + "\n" + rest) == "\n" + rest
  {
    var s := text + "\n" + rest;
    if text == "" {
      assert s == "\n" + rest;
    } else {
      assert s[1..] == text[1..] + "\n" + rest;
      AfterLineSkips(text[1..], rest);
    }
  }

  lemma {:induction false} AfterLineEnds(s: string)
    requires '\n' !in s
    ensures AfterLine(s) == ""
  {
    if s != "" { AfterLineEnds(s[1..]); }
  }

  lemma {:induction false} AfterBlockSkips(text: string, rest: string)
    requires !HasBlockEnd(text)
    ensures AfterBlock(text + "*/" + rest) == rest
  {
    var s := text + "*/" + rest;
    if text == "" {
      assert s == "*/" + rest;
    } else {
      assert s[1..] == text[1..] + "*/" + rest;
      assert s[0] == text[0] && s[1] == if |text| > 1 then text[1] else '*';
      AfterBlockSkips(text[1..], rest);
    }
  }

  lemma {:induction false} StringLengthCloses(body: string, q: char, rest: string)
    requires Terminated(body, q) && IsQuote(q)
    ensures StringLength(body + [q] + rest, q) == |body| + 1
  {
    var s := body + [q] + rest;
    if body == "" {
      assert s == [q] + rest;
    } else if body[0] == '\\' {
      assert s[2..] == body[2..] + [q] + rest;
      StringLengthCloses(body[2..], q, rest);
    } else {
      assert s[1..] == body[1..] + [q] + rest;
      StringLengthCloses(body[1..], q, rest);
    }
  }

  lemma ScanSpace(c: char, rest: string, prev: char, pending: bool)
    requires IsSpace(c)
    ensures Scan([c] + rest, prev, pending) == Scan(rest, prev, true)
  {
    hide StringLength, AfterLine, AfterBlock;
    assert ([c] + rest)[1..] == rest;
    assert "" + Scan(rest, prev, true) == Scan(rest, prev, true);
  }

  lemma ScanLineComment(s: string, prev: char, pending: bool)
    ensures Scan("//" + s, prev, pending) == Scan(AfterLine(s), prev, true)
  {
    hide StringLength, AfterLine, AfterBlock;
    var all := "//" + s;
    assert all[2..] == s;
    assert all[0] == '/' && all[1] == '/';
    assert Step(all, prev, pending) == Turn("", AfterLine(s), prev, true);
    assert "" + Scan(AfterLine(s), prev, true) == Scan(AfterLine(s), prev, true);
  }

  lemma ScanBlockComment(s: string, prev: char, pending: bool)
    ensures Scan("/*" + s, prev, pending) == Scan(AfterBlock(s), prev, true)
  {
    hide StringLength, AfterLine, AfterBlock;
    var all := "/*" + s;
    assert all[2..] == s;
    assert all[0] == '/' && all[1] == '*';
    assert Step(all, prev, pending) == Turn("", AfterBlock(s), prev, true);
    assert "" + Scan(AfterBlock(s), prev, true) == Scan(AfterBlock(s), prev, true);
  }

  lemma ScanFiller(f: Filler, rest: string, prev: char, pending: bool)
    requires IsFiller(f)
    ensures Scan(FillerText(f) + rest, prev, pending) == Scan(rest, prev, true)
  {
    hide Scan, AfterLine, AfterBlock, HasBlockEnd;
    match f
    case Space(c) =>
      ScanSpace(c, rest, prev, pending);
    case LineComment(text) =>
      assert FillerText(f) + rest == "//" + (text + "\n" + rest);
      ScanLineComment(text + "\n" + rest, prev, pending);
      AfterLineSkips(text, rest);
      ScanSpace('\n', rest, prev, true);
    case BlockComment(text) =>
      assert FillerText(f) + rest == "/*" + (text + "*/" + rest);
      ScanBlockComment(text + "*/" + rest, prev, pending);
      AfterBlockSkips(text, rest);
  }

  lemma {:induction false} ScanFillers(fs: seq<Filler>, rest: string, prev: char, pending: bool)
    requires AreFillers(fs)
    ensures Scan(FillersText(fs) + rest, prev, pending) == Scan(rest, prev, pending || fs != [])
  {
    if fs == [] {
      assert FillersText(fs) + rest == rest;
    } else {
      assert FillersText(fs) + rest == FillerText(fs[0]) + (FillersText(fs[1..]) + rest);
      ScanFiller(fs[0], FillersText(fs[1..]) + rest, prev, pending);
      ScanFillers(fs[1..], rest, prev, true);
    }
  }

  /** A run of runes the scanner copies one by one. */
  predicate IsCopied(c: char) {
    !IsSpace(c) && !IsQuote(c) && c != '/' && c != ','
  }

  lemma ScanOne(c: char, rest: string, prev: char, pending: bool)
    requires IsCopied(c)
    ensures Scan([c] + rest, prev, pending) == Gap(prev, pending, c) + [c] + Scan(rest, c, false)
  {
    hide StringLength, AfterLine, AfterBlock;
    assert ([c] + rest)[1..] == rest;
  }

  lemma {:induction false} ScanCopied(text: string, rest: string, prev: char, pending: bool)
    requires text != "" && forall c :: c in text ==> IsCopied(c)
    ensures Scan(text + rest, prev, pending)
         == Gap(prev, pending, text[0]) + text + Scan(rest, text[|text| - 1], false)
  {
    hide Scan;
    var c, more := text[0], text[1..];
    assert text + rest == [c] + (more + rest);
    ScanOne(c, more + rest, prev, pending);
    if more == "" {
      assert more + rest == rest && text == [c];
    } else {
      ScanCopied(more, rest, c, false);
      var tail := Scan(rest, text[|text| - 1], false);
      Regroup(Gap(prev, pending, c), c, more, tail);
    }
  }

  lemma Regroup(gap: string, c: char, more: string, tail: string)
    ensures gap + [c] + ("" + more + tail) == gap + ([c] + more) + tail
  {
  }

  lemma AppendSplits(a: string, b: string)
    ensures (a + b)[..|a|] == a && (a + b)[|a|..] == b
    ensures a != "" ==> (a + b)[0] == a[0]
  {
  }

  lemma StepOverLiteral(q: char, body: string, rest: string, prev: char, pending: bool)
    requires IsQuote(q) && Terminated(body, q)
    ensures Step(([q] + body + [q]) + rest, prev, pending) == Turn([q] + body + [q], rest, q, false)
  {
    hide StringLength, AfterLine, AfterBlock, Terminated;
    var literal := [q] + body + [q];
    var s := literal + rest;
    StringLengthCloses(body, q, rest);
    AppendSplits(literal, rest);
    assert s[1..] == body + [q] + rest;
    assert s[|body| + 1] == q;
    assert "" + literal == literal;
  }

  lemma ScanLiteral(q: char, body: string, rest: string, prev: char, pending: bool)
    requires IsQuote(q) && Terminated(body, q)
    ensures Scan(([q] + body + [q]) + rest, prev, pending) == ([q] + body + [q]) + Scan(rest, q, false)
    ensures Gap(prev, pending, q) == ""
  {
    hide Step, Terminated;
    StepOverLiteral(q, body, rest, prev, pending);
  }

  function Folded(t: Token): (s: string)
    requires IsToken(t)
    ensures s != ""
  {
    Spelling(FoldToken(t))
  }

  lemma ScanComma(rest: string, prev: char, pending: bool)
    ensures Scan([','] + rest, prev, pending) == Gap(prev, pending, ';') + ";" + Scan(rest, ';', false)
  {
    hide StringLength, AfterLine, AfterBlock;
    assert ([','] + rest)[1..] == rest;
  }

  lemma FoldedEnds(t: Token)
    requires IsToken(t)
    ensures IsWord(Folded(t)[0]) == IsWord(Folded(t)[|Folded(t)| - 1]) == t.Word?
  {
    if t.Word? {
      assert t.text[0] in t.text && t.text[|t.text| - 1] in t.text;
    }
  }

  lemma ScanToken(t: Token, rest: string, prev: char, pending: bool)
    requires IsToken(t)
    ensures Scan(Spelling(t) + rest, prev, pending)
         == Gap(prev, pending, Folded(t)[0]) + Folded(t) + Scan(rest, Folded(t)[|Folded(t)| - 1], false)
  {
    hide Scan, Terminated, IsWord;
    match t
    case Word(text) =>
      WordsAreCopied(text);
      ScanCopied(text, rest, prev, pending);
    case Mark(c) =>
      if c == ',' { ScanComma(rest, prev, pending); } else { ScanOne(c, rest, prev, pending); }
    case Literal(q, body) =>
      ScanLiteral(q, body, rest, prev, pending);
      assert "" + Spelling(t) == Spelling(t);
  }

  lemma WordsAreCopied(text: string)
    requires forall c :: c in text ==> IsNameRune(c)
    ensures forall c :: c in text ==> IsCopied(c)
  {
  }

  lemma RenderFirst(t: Token, ts: seq<Token>, prev: char, pending: bool)
    requires IsToken(t) && (IsWord(prev) && t.Word? ==> pending)
    ensures Render(Fold([t] + ts), IsWord(prev))
         == Gap(prev, pending, Folded(t)[0]) + Folded(t) + Render(Fold(ts), t.Word?)
  {
    assert ([t] + ts)[1..] == ts;
    var folded := Fold([t] + ts);
    assert folded == [FoldToken(t)] + Fold(ts);
    assert folded[1..] == Fold(ts);
    FoldedEnds(t);
  }

  lemma {:induction false} ScanLayout(layout: seq<Placed>, after: seq<Filler>, open: string, prev: char, pending: bool)
    requires IsLayout(layout, IsWord(prev) && !pending) && IsEnding(after, open)
    ensures Scan(LayoutText(layout, after, open), prev, pending) == Render(Fold(Tokens(layout)), IsWord(prev))
    decreases |layout|
  {
    if layout == [] {
      ScanFillers(after, open, prev, pending);
      if open != "" {
        assert open == "//" + open[2..];
        ScanLineComment(open[2..], prev, pending || after != []);
        AfterLineEnds(open[2..]);
      }
    } else {
      var before, t, rest := layout[0].before, layout[0].token, LayoutText(layout[1..], after, open);
      var last := Folded(t)[|Folded(t)| - 1];
      assert LayoutText(layout, after, open) == FillersText(before) + (Spelling(t) + rest);
      ScanFillers(before, Spelling(t) + rest, prev, pending);
      ScanToken(t, rest, prev, pending || before != []);
      FoldedEnds(t);
      ScanLayout(layout[1..], after, open, last, false);
      RenderFirst(t, Tokens(layout[1..]), prev, pending || before != []);
    }
  }

  /** The canonical form of a token sequence, however it is laid out. */
  function CanonicalOf(ts: seq<Token>): string {
    Finish(Render(Fold(ts), false))
  }

  lemma CanonicalOfLayout(layout: seq<Placed>, after: seq<Filler>, open: string)
    requires IsLayout(layout, false) && IsEnding(after, open)
    ensures CanonicalTS(LayoutText(layout, after, open)) == CanonicalOf(Tokens(layout))
  {
    ScanLayout(layout, after, open, NoRune, false);
  }

  /**
   Any two layouts of token sequences equal up to comma or semicolon separators
   canonicalize alike.
   */
  lemma LayoutDoesNotMatter(
    layout: seq<Placed>, after: seq<Filler>, open: string,
    layout': seq<Placed>, after': seq<Filler>, open': string)
    requires IsLayout(layout, false) && IsEnding(after, open)
    requires IsLayout(layout', false) && IsEnding(after', open')
    requires Fold(Tokens(layout)) == Fold(Tokens(layout'))
    ensures CanonicalTS(LayoutText(layout, after, open)) == CanonicalTS(LayoutText(layout', after', open'))
  {
    CanonicalOfLayout(layout, after, open);
    CanonicalOfLayout(layout', after', open');
  }
}

/**
 internal/code-gen/templateTemplating.go: what is written into script elements, and
 what a browser and a JSON parser make of it.
 */
module Islands {
  import opened Wrappers
  import opened Text

  // -------------------------------------------------------------- JSON in a data island

  /** `strings.ReplaceAll(s, "</", "<\\/")`. */
  function InlineJSON(s: string): string {
    ReplaceAll(s, "</", "<\\/")
  }

  /** What a JSON text is made of, with its strings decoded: any two texts alike in this have one value. */
  datatype Unit = Mark(c: char) | Open | Close | Rune(c: char) | Code(hex: string)

  /** Outside strings: at least the characters sections 2, 3 and 6 of RFC 8259 allow. */
  predicate IsOutside(c: char) {
    c == ' ' || c == '\t' || c == '\n' || c == '\r' || c == '{' || c == '}' || c == '[' || c == ']' || c == ':' ||
    c == ',' || c == '+' || c == '-' || c == '.' || '0' <= c <= '9' || 'a' <= c <= 'z' || c == 'E'
  }

  predicate IsHex(c: char) {
    '0' <= c <= '9' || 'a' <= c <= 'f' || 'A' <= c <= 'F'
  }

  /** Section 7 of RFC 8259: what an escaped character stands for. */
  function Unescaped(c: char): Option<char> {
    if c == '"' || c == '\\' || c == '/' then Some(c)
    else if c == 'b' then Some(8 as char)
    else if c == 'f' then Some(12 as char)
    else if c == 'n' then Some('\n')
    else if c == 'r' then Some('\r')
    else if c == 't' then Some('\t')
    else None
  }

  function Prepend(u: Unit, rest: Option<seq<Unit>>): Option<seq<Unit>> {
    match rest
    case None => None
    case Some(us) => Some([u] + us)
  }

  /** The units of a text from outside or inside a string; none if it is no JSON text. */
  function Units(s: string, inside: bool): Option<seq<Unit>> {
    if s == "" then if inside then None else Some([])
    else if !inside then
      if s[0] == '"' then Prepend(Open, Units(s[1..], true))
      else if IsOutside(s[0]) then Prepend(Mark(s[0]), Units(s[1..], false))
      else None
    else if s[0] == '"' then Prepend(Close, Units(s[1..], false))
    else if s[0] == '\\' then
      if |s| < 2 then None
      else if s[1] == 'u' then
        if |s| < 6 || !(IsHex(s[2]) && IsHex(s[3]) && IsHex(s[4]) && IsHex(s[5])) then None
        else Prepend(Code(s[2..6]), Units(s[6..], true))
      else
        match Unescaped(s[1])
        case None => None
        case Some(c) => Prepend(Rune(c), Units(s[2..], true))
    else if s[0] < ' ' then None
    else Prepend(Rune(s[0]), Units(s[1..], true))
  }

  predicate LacksCloser(s: string) {
    forall i :: 0 <= i < |s| - 1 ==> !(s[i] == '<' && s[i + 1] == '/')
  }

  lemma ReplaceCloser(rest: string)
    ensures InlineJSON("</" + rest) == "<\\/" + InlineJSON(rest)
  {
    assert ("</" + rest)[2..] == rest;
  }

  lemma ReplaceOther(c: char, rest: string)
    requires c != '<' || rest == "" || rest[0] != '/'
    ensures InlineJSON([c] + rest) == [c] + InlineJSON(rest)
  {
    assert ([c] + rest)[1..] == rest;
    assert "</"[1] == '/';
  }

  /** Text without an opening angle bracket goes through as it is. */
  lemma {:induction false} ReplaceSkips(a: string, rest: string)
    requires forall i :: 0 <= i < |a| ==> a[i] != '<'
    ensures InlineJSON(a + rest) == a + InlineJSON(rest)
  {
    if a == "" {
      assert a + rest == rest && a + InlineJSON(rest) == InlineJSON(rest);
    } else {
      assert a + rest == [a[0]] + (a[1..] + rest);
      ReplaceOther(a[0], a[1..] + rest);
      ReplaceSkips(a[1..], rest);
    }
  }

  lemma {:induction false} InlineJSONLacksCloser(s: string)
    ensures LacksCloser(InlineJSON(s))
  {
    if s == "" {
    } else if "</" <= s {
      assert s == "</" + s[2..];
      ReplaceCloser(s[2..]);
      InlineJSONLacksCloser(s[2..]);
    } else {
      assert s == [s[0]] + s[1..];
      ReplaceOther(s[0], s[1..]);
      InlineJSONLacksCloser(s[1..]);
    }
  }

  /** An escape goes through: what follows its backslash is no angle bracket. */
  lemma EscapeSkips(s: string, n: nat)
    requires 0 < n <= |s| && forall i :: 0 <= i < n ==> s[i] != '<'
    ensures InlineJSON(s) == s[..n] + InlineJSON(s[n..])
  {
    assert s == s[..n] + s[n..];
    ReplaceSkips(s[..n], s[n..]);
  }

  lemma UnitsAfterEscape(s: string, rest: string)
    requires |s| >= 2 && s[0] == '\\'
    requires s[1] == 'u' ==> |s| >= 6
    ensures var n := if s[1] == 'u' then 6 else 2;
      Units(s[..n] + rest, true) ==
        if s[1] == 'u' then
          if IsHex(s[2]) && IsHex(s[3]) && IsHex(s[4]) && IsHex(s[5]) then Prepend(Code(s[2..6]), Units(rest, true))
          else None
        else if Unescaped(s[1]).None? then None
        else Prepend(Rune(Unescaped(s[1]).value), Units(rest, true))
  {
    var n := if s[1] == 'u' then 6 else 2;
    assert (s[..n] + rest)[n..] == rest;
    if s[1] == 'u' { assert (s[..n] + rest)[2..6] == s[2..6]; }
  }

  /** A JSON text keeps its units, and so its value. */
  lemma {:induction false} InlineJSONKeepsValue(s: string, inside: bool)
    requires Units(s, inside).Some?
    ensures Units(InlineJSON(s), inside) == Units(s, inside)
    decreases |s|
  {
    if s != "" {
      var c, rest := s[0], s[1..];
      assert s == [c] + rest;
      if inside && c == '\\' {
        var n := if s[1] == 'u' then 6 else 2;
        EscapeSkips(s, n);
        InlineJSONKeepsValue(s[n..], true);
        UnitsAfterEscape(s, InlineJSON(s[n..]));
        UnitsAfterEscape(s, s[n..]);
        assert s[..n] + s[n..] == s;
      } else if inside && "</" <= s {
        CloserInString(s);
      } else {
        ReplaceOther(c, rest);
        assert ([c] + InlineJSON(rest))[1..] == InlineJSON(rest);
        InlineJSONKeepsValue(rest, if c == '"' then !inside else inside);
      }
    }
  }

  lemma {:induction false} CloserInString(s: string)
    requires Units(s, true).Some? && "</" <= s
    ensures Units(InlineJSON(s), true) == Units(s, true)
    decreases |s|, 0
  {
    var rest := s[2..];
    assert s == "</" + rest && s[1..] == "/" + rest && s[1..][1..] == rest;
    InlineJSONKeepsValue(rest, true);
    ReplaceCloser(rest);
    var out := "<\\/" + InlineJSON(rest);
    assert out[1..] == "\\/" + InlineJSON(rest) && out[1..][2..] == InlineJSON(rest);
  }

  // -------------------------------------------------------------- a script in a page

  /** Simple case folding, as far as the word needs it: the long s folds to s too. */
  function Folded(c: char): char {
    if 'A' <= c <= 'Z' then (c as int + 32) as char else if c == '\U{017F}' then 's' else c
  }

  const SCRIPT := "script"

  predicate IsScript(w: string) {
    |w| >= 6 && forall i :: 0 <= i < 6 ==> Folded(w[i]) == SCRIPT[i]
  }

  /** `(?i)</script` matches here. */
  predicate ClosesScript(s: string) {
    |s| >= 8 && s[0] == '<' && s[1] == '/' && IsScript(s[2..])
  }

  /** `ReplaceAllStringFunc`: leftmost matches, none overlapping; the case is kept. */
  function InlineJS(js: string): string {
    if js == "" then ""
    else if ClosesScript(js) then "<\\/" + js[2..8] + InlineJS(js[8..])
    else [js[0]] + InlineJS(js[1..])
  }

  /** The text without the backslashes between a `<` and a `/`. */
  function Unslashed(s: string): string {
    if s == "" then ""
    else if |s| >= 3 && s[0] == '<' && s[1] == '\\' && s[2] == '/' then "</" + Unslashed(s[3..])
    else [s[0]] + Unslashed(s[1..])
  }

  predicate LacksScriptCloser(s: string) {
    forall i :: 0 <= i < |s| ==> !ClosesScript(s[i..])
  }

  lemma FoldedLetters(c: char)
    ensures Folded(c) in SCRIPT ==> c != '<' && c != '/' && c != '\\'
  {
  }

  lemma CloserFirst(js: string)
    ensures ClosesScript(js) ==> InlineJS(js) != "" && InlineJS(js)[0] == '<'
  {
  }

  /** A prefix of the output that has no bracket is a prefix of the input. */
  lemma {:induction false} CopiedPrefix(js: string, n: nat)
    requires n <= |InlineJS(js)| && forall i :: 0 <= i < n ==> InlineJS(js)[i] != '<'
    ensures n <= |js| && InlineJS(js)[..n] == js[..n]
  {
    if n > 0 {
      CloserFirst(js);
      var rest := InlineJS(js[1..]);
      assert InlineJS(js) == [js[0]] + rest;
      assert forall i :: 0 <= i < n - 1 ==> rest[i] == InlineJS(js)[i + 1];
      CopiedPrefix(js[1..], n - 1);
      assert InlineJS(js)[..n] == [js[0]] + rest[..n - 1];
      assert js[..n] == [js[0]] + js[1..][..n - 1];
    }
  }

  lemma CopiedCloser(c: char, x: string)
    requires ClosesScript([c] + InlineJS(x))
    ensures ClosesScript([c] + x)
  {
    var out, rest := [c] + InlineJS(x), InlineJS(x);
    forall i | 0 <= i < 7 ensures rest[i] != '<' {
      assert rest[i] == out[i + 1];
      if i > 0 { FoldedLetters(out[2..][i - 1]); }
    }
    CopiedPrefix(x, 7);
    assert forall i :: 0 <= i < 7 ==> x[i] == x[..7][i] && rest[..7][i] == rest[i];
    assert forall i :: 0 <= i < 6 ==> ([c] + x)[2..][i] == out[2..][i];
  }

  lemma NeverAtStart(js: string)
    ensures !ClosesScript(InlineJS(js))
  {
    if ClosesScript(js) {
      assert InlineJS(js)[1] == '\\';
    } else if js != "" {
      assert js == [js[0]] + js[1..];
      assert InlineJS(js) == [js[0]] + InlineJS(js[1..]);
      if ClosesScript(InlineJS(js)) { CopiedCloser(js[0], js[1..]); }
    }
  }

  lemma ClosersIn(a: string, b: string)
    requires LacksScriptCloser(b) && forall i :: 0 <= i < |a| ==> a[i] != '<'
    ensures LacksScriptCloser(a + b)
  {
    forall i | 0 <= i < |a + b| ensures !ClosesScript((a + b)[i..]) {
      if i >= |a| { assert (a + b)[i..] == b[i - |a|..]; }
    }
  }

  lemma ClosersCons(c: char, b: string)
    requires LacksScriptCloser(b) && !ClosesScript([c] + b)
    ensures LacksScriptCloser([c] + b)
  {
    forall i | 0 <= i < |[c] + b| ensures !ClosesScript(([c] + b)[i..]) {
      if i > 0 { assert ([c] + b)[i..] == b[i - 1..]; }
    }
  }

  /** Whatever the letters' case, nothing in the output ends the element. */
  lemma {:induction false} InlineJSLacksCloser(js: string)
    ensures LacksScriptCloser(InlineJS(js))
  {
    if js == "" {
    } else if ClosesScript(js) {
      var letters, rest := js[2..8], InlineJS(js[8..]);
      InlineJSLacksCloser(js[8..]);
      forall i | 0 <= i < |"\\/" + letters| ensures ("\\/" + letters)[i] != '<' {
        if i >= 2 { FoldedLetters(js[2..][i - 2]); }
      }
      ClosersIn("\\/" + letters, rest);
      assert "<\\/" + letters + rest == ['<'] + ("\\/" + letters + rest);
      NeverAtStart(js);
      ClosersCons('<', "\\/" + letters + rest);
    } else {
      InlineJSLacksCloser(js[1..]);
      NeverAtStart(js);
      ClosersCons(js[0], InlineJS(js[1..]));
    }
  }

  /** A script that ends nothing is written as it is, and only such a script is. */
  lemma {:induction false} InlineJSKeepsIff(js: string)
    ensures InlineJS(js) == js <==> LacksScriptCloser(js)
  {
    InlineJSLacksCloser(js);
    if LacksScriptCloser(js) { InlineJSKeeps(js); }
  }

  lemma {:induction false} InlineJSKeeps(js: string)
    requires LacksScriptCloser(js)
    ensures InlineJS(js) == js
  {
    if js != "" {
      assert js[0..] == js;
      forall i | 0 <= i < |js[1..]| ensures !ClosesScript(js[1..][i..]) {
        assert js[1..][i..] == js[i + 1..];
      }
      InlineJSKeeps(js[1..]);
      assert js == [js[0]] + js[1..];
    }
  }

  lemma UnslashedCopies(c: char, x: string)
    requires !(c == '<' && |x| >= 2 && x[0] == '\\' && x[1] == '/')
    ensures Unslashed([c] + x) == [c] + Unslashed(x)
  {
    assert ([c] + x)[1..] == x;
  }

  lemma UnslashedDrops(x: string)
    ensures Unslashed("<\\/" + x) == "</" + Unslashed(x)
  {
    assert ("<\\/" + x)[3..] == x;
  }

  lemma {:induction false} UnslashedLetters(word: string, x: string)
    requires '<' !in word
    ensures Unslashed(word + x) == word + Unslashed(x)
  {
    if word == "" {
      assert word + x == x && word + Unslashed(x) == Unslashed(x);
    } else {
      assert word + x == [word[0]] + (word[1..] + x);
      UnslashedCopies(word[0], word[1..] + x);
      UnslashedLetters(word[1..], x);
      assert [word[0]] + (word[1..] + Unslashed(x)) == word + Unslashed(x);
    }
  }

  /** What stays in place where a script begins. */
  lemma StartsAlike(js: string)
    ensures |InlineJS(js)| >= |js| && (if js == "" then InlineJS(js) == "" else InlineJS(js)[0] == js[0])
    ensures js != "" && js[0] != '<' ==> InlineJS(js) == [js[0]] + InlineJS(js[1..])
  {
    InlineGrows(js);
  }

  lemma {:induction false} InlineGrows(js: string)
    ensures |InlineJS(js)| >= |js|
  {
    if js != "" { InlineGrows(if ClosesScript(js) then js[8..] else js[1..]); }
  }

  lemma CloserUnslashed(word: string, x: string, y: string)
    requires '<' !in word && Unslashed(x) == Unslashed(y)
    ensures Unslashed("<\\/" + (word + x)) == Unslashed(['<'] + (("/" + word) + y))
  {
    hide *;
    UnslashedDrops(word + x);
    UnslashedLetters(word, x);
    UnslashedLetters("/" + word, y);
    UnslashedCopies('<', ("/" + word) + y);
    var rest := Unslashed(y);
    assert "</" + (word + rest) == ['<'] + (("/" + word) + rest);
  }

  lemma CloserParts(js: string)
    requires ClosesScript(js)
    ensures js == ['<'] + (("/" + js[2..8]) + js[8..]) && '<' !in js[2..8]
    ensures InlineJS(js) == "<\\/" + (js[2..8] + InlineJS(js[8..]))
  {
    forall c | c in js[2..8] ensures c != '<' {
      var i :| 0 <= i < 6 && js[2..8][i] == c;
      FoldedLetters(js[2..][i]);
    }
    hide IsScript, Folded;
    assert "<\\/" + js[2..8] + InlineJS(js[8..]) == "<\\/" + (js[2..8] + InlineJS(js[8..]));
  }

  /** Backslashes between a `<` and a `/` aside, the escaped script is the script, letter for letter. */
  lemma {:induction false} InlineJSKeepsRest(js: string)
    ensures Unslashed(InlineJS(js)) == Unslashed(js)
    decreases |js|, 0
  {
    hide Unslashed, IsScript, Folded;
    if js == "" {
    } else if ClosesScript(js) {
      InlineJSKeepsRest(js[8..]);
      CloserParts(js);
      CloserUnslashed(js[2..8], InlineJS(js[8..]), js[8..]);
    } else {
      CopiedUnslashed(js[0], js[1..]);
      assert js == [js[0]] + js[1..];
    }
  }

  lemma {:induction false} CopiedUnslashed(c: char, x: string)
    ensures Unslashed([c] + InlineJS(x)) == Unslashed([c] + x)
    decreases |x|, 1
  {
    hide IsScript, Folded, InlineJS, Unslashed;
    StartsAlike(x);
    if c == '<' && |x| >= 2 && x[0] == '\\' && x[1] == '/' {
      StartsAlike(x[1..]);
      assert x == "\\/" + x[2..] && InlineJS(x) == "\\/" + InlineJS(x[2..]);
      InlineJSKeepsRest(x[2..]);
      UnslashedDrops(x[2..]);
      UnslashedDrops(InlineJS(x[2..]));
      assert [c] + x == "<\\/" + x[2..] && [c] + InlineJS(x) == "<\\/" + InlineJS(x[2..]);
    } else {
      if |x| >= 1 && x[0] == '\\' { StartsAlike(x[1..]); }
      UnslashedCopies(c, x);
      UnslashedCopies(c, InlineJS(x));
      InlineJSKeepsRest(x);
    }
  }

  /** The same of what is put into an island, whether or not it is JSON. */
  lemma {:induction false} InlineJSONKeepsRest(s: string)
    ensures Unslashed(InlineJSON(s)) == Unslashed(s)
    decreases |s|, 0
  {
    if s != "" {
      if "</" <= s {
        InlineJSONKeepsRest(s[2..]);
        assert s == ['<'] + ("/" + s[2..]) && InlineJSON(s) == "<\\/" + InlineJSON(s[2..]);
        UnslashedDrops(InlineJSON(s[2..]));
        UnslashedLetters("/", s[2..]);
        UnslashedCopies('<', "/" + s[2..]);
        assert "</" + Unslashed(s[2..]) == ['<'] + ("/" + Unslashed(s[2..]));
      } else {
        CopiedJSON(s[0], s[1..]);
        assert s == [s[0]] + s[1..];
      }
    }
  }

  lemma {:induction false} CopiedJSON(c: char, x: string)
    ensures Unslashed([c] + InlineJSON(x)) == Unslashed([c] + x)
    decreases |x|, 1
  {
    JSONStarts(x);
    if c == '<' && |x| >= 2 && x[0] == '\\' && x[1] == '/' {
      JSONStarts(x[1..]);
      assert x == "\\/" + x[2..] && InlineJSON(x) == "\\/" + InlineJSON(x[2..]);
      InlineJSONKeepsRest(x[2..]);
      UnslashedDrops(x[2..]);
      UnslashedDrops(InlineJSON(x[2..]));
      assert [c] + x == "<\\/" + x[2..] && [c] + InlineJSON(x) == "<\\/" + InlineJSON(x[2..]);
    } else {
      if |x| >= 1 && x[0] == '\\' { JSONStarts(x[1..]); }
      UnslashedCopies(c, x);
      UnslashedCopies(c, InlineJSON(x));
      InlineJSONKeepsRest(x);
    }
  }

  lemma {:induction false} JSONStarts(s: string)
    ensures |InlineJSON(s)| >= |s| && (s != "" ==> InlineJSON(s)[0] == s[0])
    ensures s != "" && s[0] != '<' ==> InlineJSON(s) == [s[0]] + InlineJSON(s[1..])
  {
    if s != "" { JSONStarts(if "</" <= s then s[2..] else s[1..]); }
  }

  // ------------------------------------------------------------------------ the islands

  const EMPTY_ISLAND := "{}"

  datatype Island = Island(mount: string, json: string)

  function PropsMount(root: string): string {
    "props-" + root
  }

  function BodyOf(held: map<string, string>, mount: string): string {
    if mount in held && held[mount] != "" then held[mount] else EMPTY_ISLAND
  }

  /** The mounts besides the props', sorted. */
  method OtherMounts(held: map<string, string>, props: string) returns (sorted: seq<string>)
    ensures StrictlySorted(sorted) && forall m :: m in sorted <==> m in held && m != props
  {
    hide Less, InsertText;
    sorted := [];
    var left := held.Keys - {props};
    while left != {}
      invariant left <= held.Keys - {props} && StrictlySorted(sorted)
      invariant forall m :: m in sorted <==> m in held && m != props && m !in left
      decreases |left|
    {
      var mount :| mount in left;
      InsertTextKeeps(mount, sorted);
      left := left - {mount};
      sorted := InsertText(mount, sorted);
    }
  }

  function IslandsOf(held: map<string, string>, mounts: seq<string>): seq<Island> {
    if mounts == [] then []
    else [Island(mounts[0], InlineJSON(BodyOf(held, mounts[0])))] + IslandsOf(held, mounts[1..])
  }

  lemma NoIslands(held: map<string, string>)
    ensures IslandsOf(held, []) == []
  {
  }

  lemma IslandsFirst(held: map<string, string>, mounts: seq<string>, k: nat)
    requires k < |mounts|
    ensures IslandsOf(held, mounts[k..])
         == [Island(mounts[k], InlineJSON(BodyOf(held, mounts[k])))] + IslandsOf(held, mounts[k + 1..])
  {
    hide InlineJSON, BodyOf;
    assert mounts[k..][0] == mounts[k] && mounts[k..][1..] == mounts[k + 1..];
  }

  lemma {:induction false} IslandsAt(held: map<string, string>, mounts: seq<string>)
    ensures |IslandsOf(held, mounts)| == |mounts|
    ensures forall i :: 0 <= i < |mounts| ==>
      IslandsOf(held, mounts)[i] == Island(mounts[i], InlineJSON(BodyOf(held, mounts[i]))) &&
      LacksCloser(IslandsOf(held, mounts)[i].json)
  {
    hide LacksCloser, InlineJSON, BodyOf;
    if mounts != [] {
      IslandsAt(held, mounts[1..]);
      InlineJSONLacksCloser(BodyOf(held, mounts[0]));
    }
  }

  function MountsOf(islands: seq<Island>): seq<string> {
    if islands == [] then [] else [islands[0].mount] + MountsOf(islands[1..])
  }

  lemma {:induction false} MountsOfIslands(held: map<string, string>, mounts: seq<string>)
    ensures MountsOf(IslandsOf(held, mounts)) == mounts
  {
    hide InlineJSON, BodyOf;
    if mounts != [] {
      MountsOfIslands(held, mounts[1..]);
      assert IslandsOf(held, mounts)[1..] == IslandsOf(held, mounts[1..]);
    }
  }

  /** A filled island holds what was put, but for the escaping, and the same JSON if it was any; one not filled holds `{}`. */
  predicate IsFilled(held: map<string, string>, island: Island) {
    if island.mount in held && held[island.mount] != "" then
      && Unslashed(island.json) == Unslashed(held[island.mount])
      && (Units(held[island.mount], false).Some? ==> Units(island.json, false) == Units(held[island.mount], false))
    else island.json == "{}"
  }

  lemma {:induction false} IslandsAreFilled(held: map<string, string>, mounts: seq<string>)
    ensures forall i :: 0 <= i < |IslandsOf(held, mounts)| ==> IsFilled(held, IslandsOf(held, mounts)[i])
  {
    hide InlineJSON, Unslashed, Units;
    if mounts != [] {
      IslandsAreFilled(held, mounts[1..]);
      var mount := mounts[0];
      EmptyInlined();
      if mount in held && held[mount] != "" {
        InlineJSONKeepsRest(held[mount]);
        if Units(held[mount], false).Some? { InlineJSONKeepsValue(held[mount], false); }
      }
    }
  }

  lemma EmptyInlined()
    ensures InlineJSON("{}") == "{}"
  {
    assert "{}"[1..] == "}" && "}"[1..] == "";
    assert InlineJSON("") == "";
    assert InlineJSON("}") == ['}'] + InlineJSON("");
    assert InlineJSON("{}") == ['{'] + InlineJSON("}");
  }

  /** The props island first, filled or not; the rest by mount, each once; each body escaped. */
  method DataIslands(held: map<string, string>, root: string) returns (out: seq<Island>)
    ensures out != [] && out[0].mount == "props-" + root
    ensures var others := MountsOf(out[1..]);
      StrictlySorted(others) && forall m :: m in others <==> m in held && m != PropsMount(root)
    ensures out == IslandsOf(held, MountsOf(out)) && forall i :: 0 <= i < |out| ==> IsFilled(held, out[i])
  {
    assert PropsMount(root) == "props-" + root;
    hide InlineJSON, StrictlySorted, BodyOf, PropsMount, IsFilled;
    var props := PropsMount(root);
    var sorted := OtherMounts(held, props);
    var mounts := [props] + sorted;
    out := FillIslands(held, mounts);
    MountsOfIslands(held, mounts);
    IslandsAreFilled(held, mounts);
    assert mounts[1..] == sorted;
    assert MountsOf(out)[1..] == MountsOf(out[1..]);
  }

  method FillIslands(held: map<string, string>, mounts: seq<string>) returns (out: seq<Island>)
    ensures out == IslandsOf(held, mounts)
  {
    hide InlineJSON, BodyOf, IslandsOf;
    out := [];
    assert mounts[0..] == mounts;
    for k := 0 to |mounts|
      invariant out + IslandsOf(held, mounts[k..]) == IslandsOf(held, mounts)
    {
      var island := Island(mounts[k], InlineJSON(BodyOf(held, mounts[k])));
      IslandsFirst(held, mounts, k);
      assert out + ([island] + IslandsOf(held, mounts[k + 1..])) == (out + [island]) + IslandsOf(held, mounts[k + 1..]);
      out := out + [island];
    }
    NoIslands(held);
    assert mounts[|mounts|..] == [] && out + [] == out;
  }
}

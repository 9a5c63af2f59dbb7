/**
 internal/static: the names an asset goes by. Its key in the generated module
 (sanitize.go), its public URL (manifest.go), and the mount they sit under.
 */
module AssetUrls {
  import opened Text

  // ----------------------------------------------------------------------- sanitize

  /** What Unicode calls letters and digits. */
  datatype Alphabet = Alphabet(isLetter: char -> bool, isDigit: char -> bool)

  predicate IsIdentifierRune(abc: Alphabet, c: char) {
    c == '_' || c == '$' || abc.isLetter(c) || abc.isDigit(c)
  }

  /** What one rune adds. */
  function Piece(abc: Alphabet, c: char, underscored: bool): string {
    if IsIdentifierRune(abc, c) then [c] else if underscored then "" else "_"
  }

  /** Runs of anything else collapse to one underscore. */
  function Collapse(abc: Alphabet, name: string, underscored: bool): string {
    if name == "" then ""
    else Piece(abc, name[0], underscored) + Collapse(abc, name[1..], !IsIdentifierRune(abc, name[0]))
  }

  function Sanitized(abc: Alphabet, name: string): string {
    var out := Collapse(abc, name, false);
    if out != "" && abc.isDigit(out[0]) then "_" + out else out
  }

  lemma CollapseFrom(abc: Alphabet, name: string, i: nat, underscored: bool, out: string)
    requires i < |name|
    ensures out + Collapse(abc, name[i..], underscored)
         == out + Piece(abc, name[i], underscored) + Collapse(abc, name[i + 1..], !IsIdentifierRune(abc, name[i]))
  {
    assert name[i..][1..] == name[i + 1..];
  }

  /** The body of the loop. */
  method WriteRune(abc: Alphabet, c: char, before: string, underscored: bool) returns (out: string, flag: bool)
    ensures out == before + Piece(abc, c, underscored) && flag == !IsIdentifierRune(abc, c)
  {
    if IsIdentifierRune(abc, c) { return before + [c], false; }
    if underscored {
      assert before + "" == before;
      return before, true;
    }
    return before + "_", true;
  }

  method Sanitize(abc: Alphabet, name: string) returns (out: string)
    ensures out == Sanitized(abc, name)
  {
    if name == "" { return ""; }
    out := "";
    var underscored := false;
    assert name[0..] == name && "" + Collapse(abc, name, false) == Collapse(abc, name, false);
    for i := 0 to |name|
      invariant out + Collapse(abc, name[i..], underscored) == Collapse(abc, name, false)
    {
      CollapseFrom(abc, name, i, underscored, out);
      out, underscored := WriteRune(abc, name[i], out, underscored);
    }
    CollapseIsRunes(abc, name, false);
    assert name[|name|..] == "" && out + "" == out;
    if abc.isDigit(out[0]) { out := "_" + out; }
  }

  predicate IsIdentifier(abc: Alphabet, s: string) {
    s != "" && !abc.isDigit(s[0]) && forall i :: 0 <= i < |s| ==> IsIdentifierRune(abc, s[i])
  }

  lemma {:induction false} CollapseIsRunes(abc: Alphabet, name: string, underscored: bool)
    ensures forall i :: 0 <= i < |Collapse(abc, name, underscored)| ==>
      IsIdentifierRune(abc, Collapse(abc, name, underscored)[i])
    ensures name != "" && !underscored ==> Collapse(abc, name, underscored) != ""
  {
    if name != "" {
      CollapseIsRunes(abc, name[1..], !IsIdentifierRune(abc, name[0]));
    }
  }

  lemma {:induction false} CollapseKeeps(abc: Alphabet, s: string)
    requires forall i :: 0 <= i < |s| ==> IsIdentifierRune(abc, s[i])
    ensures Collapse(abc, s, false) == s
  {
    if s != "" {
      CollapseKeeps(abc, s[1..]);
      assert s == [s[0]] + s[1..];
    }
  }

  lemma CollapseStep(abc: Alphabet, c: char, x: string, underscored: bool)
    ensures Collapse(abc, [c] + x, underscored) == Piece(abc, c, underscored) + Collapse(abc, x, !IsIdentifierRune(abc, c))
  {
    assert ([c] + x)[1..] == x;
  }

  /** Identifier runes come out as they are. */
  lemma {:induction false} WordIsKept(abc: Alphabet, word: string, x: string)
    requires word != "" && forall i :: 0 <= i < |word| ==> IsIdentifierRune(abc, word[i])
    ensures forall underscored :: Collapse(abc, word + x, underscored) == word + Collapse(abc, x, false)
  {
    hide Collapse;
    forall underscored ensures Collapse(abc, word + x, underscored) == word + Collapse(abc, x, false) {
      assert word + x == [word[0]] + (word[1..] + x);
      CollapseStep(abc, word[0], word[1..] + x, underscored);
      if |word| == 1 {
        assert word[1..] + x == x;
      } else {
        WordIsKept(abc, word[1..], x);
        assert [word[0]] + (word[1..] + Collapse(abc, x, false)) == word + Collapse(abc, x, false);
      }
    }
  }

  lemma {:induction false} JunkCollapses(abc: Alphabet, junk: string, rest: string, underscored: bool)
    requires junk != "" && forall i :: 0 <= i < |junk| ==> !IsIdentifierRune(abc, junk[i])
    requires rest == "" || IsIdentifierRune(abc, rest[0])
    ensures Collapse(abc, junk + rest, underscored) == (if underscored then "" else "_") + Collapse(abc, rest, false)
    decreases |junk|
  {
    hide Collapse;
    assert junk + rest == [junk[0]] + (junk[1..] + rest);
    CollapseStep(abc, junk[0], junk[1..] + rest, underscored);
    var tail := Collapse(abc, rest, false);
    if |junk| == 1 {
      assert junk[1..] + rest == rest;
      WordStarts(abc, rest);
    } else {
      JunkCollapses(abc, junk[1..], rest, true);
      assert "" + tail == tail;
    }
  }

  /** A run of anything else between identifier runes comes out as one underscore. */
  lemma RunCollapses(abc: Alphabet, word: string, junk: string, rest: string)
    requires forall i :: 0 <= i < |word| ==> IsIdentifierRune(abc, word[i])
    requires junk != "" && forall i :: 0 <= i < |junk| ==> !IsIdentifierRune(abc, junk[i])
    requires rest == "" || IsIdentifierRune(abc, rest[0])
    ensures Collapse(abc, word + (junk + rest), false) == word + ("_" + Collapse(abc, rest, false))
  {
    hide Collapse;
    JunkCollapses(abc, junk, rest, false);
    if word == "" {
      assert word + (junk + rest) == junk + rest;
      assert "" + ("_" + Collapse(abc, rest, false)) == "_" + Collapse(abc, rest, false);
    } else {
      WordIsKept(abc, word, junk + rest);
    }
  }

  lemma WordStarts(abc: Alphabet, rest: string)
    requires rest == "" || IsIdentifierRune(abc, rest[0])
    ensures Collapse(abc, rest, true) == Collapse(abc, rest, false)
  {
  }

  /** An underscore is put in front of identifier runes exactly when a digit leads them. */
  lemma DigitIsLed(abc: Alphabet, word: string)
    requires word != "" && forall i :: 0 <= i < |word| ==> IsIdentifierRune(abc, word[i])
    ensures Sanitized(abc, word) == (if abc.isDigit(word[0]) then "_" else "") + word
  {
    CollapseKeeps(abc, word);
    assert "" + word == word;
  }

  /** The identifier runes: letters and digits, whatever the alphabet says they are, and these two. */
  lemma IdentifierRunes(abc: Alphabet)
    ensures IsIdentifierRune(abc, '_') && IsIdentifierRune(abc, '$')
    ensures forall c :: c != '_' && c != '$' ==> (IsIdentifierRune(abc, c) <==> abc.isLetter(c) || abc.isDigit(c))
  {
  }

  /** A sanitized name is an identifier, and identifiers are their own. */
  lemma SanitizedIsIdentifier(abc: Alphabet, name: string)
    requires !abc.isDigit('_') && name != ""
    ensures IsIdentifier(abc, Sanitized(abc, name))
    ensures Sanitized(abc, name) == name <==> IsIdentifier(abc, name)
    ensures Sanitized(abc, Sanitized(abc, name)) == Sanitized(abc, name)
  {
    CollapseIsRunes(abc, name, false);
    CollapseKeeps(abc, Sanitized(abc, name));
    if IsIdentifier(abc, name) { CollapseKeeps(abc, name); }
  }

  // ---------------------------------------------------------------------------- URLs

  /** Go's `filepath.Ext`: from the last dot of the last element. */
  function Ext(path: string): (ext: string)
    ensures |ext| <= |path| && path[|path| - |ext|..] == ext
    ensures ext != "" ==> ext[0] == '.'
  {
    if path == "" then ""
    else
      var c := path[|path| - 1];
      if c == '/' then ""
      else if c == '.' then "."
      else
        var ext := Ext(path[..|path| - 1]);
        if ext == "" then "" else ext + [c]
  }

  function StemOf(path: string): string {
    path[..|path| - |Ext(path)|]
  }

  lemma StemAndExt(path: string)
    ensures StemOf(path) + Ext(path) == path
  {
  }

  /** Neither a dot nor a slash. */
  predicate IsPart(s: string) {
    forall i :: 0 <= i < |s| ==> s[i] != '.' && s[i] != '/'
  }

  lemma ExtGrows(path: string, c: char)
    requires c != '/'
    ensures Ext(path + [c]) == if c == '.' then "." else if Ext(path) == "" then "" else Ext(path) + [c]
  {
    assert (path + [c])[..|path|] == path;
  }

  lemma OneLonger(a: string, part: string)
    requires part != ""
    ensures a + part == (a + part[..|part| - 1]) + [part[|part| - 1]]
  {
  }

  lemma {:induction false} ExtIs(stem: string, part: string)
    requires IsPart(part)
    ensures Ext(stem + "." + part) == "." + part
  {
    hide Ext;
    if part == "" {
      assert stem + "." + part == stem + ['.'];
      ExtGrows(stem, '.');
    } else {
      var shorter, c := part[..|part| - 1], part[|part| - 1];
      ExtIs(stem, shorter);
      ExtGrows(stem + "." + shorter, c);
      OneLonger(stem + ".", part);
      OneLonger(".", part);
    }
  }

  lemma {:induction false} ExtIsPart(path: string)
    requires Ext(path) != ""
    ensures IsPart(Ext(path)[1..])
  {
    var c := path[|path| - 1];
    if c != '.' {
      ExtIsPart(path[..|path| - 1]);
      assert Ext(path)[1..] == Ext(path[..|path| - 1])[1..] + [c];
    }
  }

  function Hashed(rel: string, digest: string): string {
    StemOf(rel) + "." + digest + Ext(rel)
  }

  /** The content-hashed public path. */
  function UrlOf(mount: string, rel: string, digest: string): string {
    mount + Hashed(rel, digest)
  }

  lemma HashedPlain(rel: string, digest: string)
    requires Ext(rel) == ""
    ensures Hashed(rel, digest) == rel + "." + digest
  {
    assert StemOf(rel) == rel;
  }

  lemma HashedDotted(rel: string, digest: string)
    requires Ext(rel) != ""
    ensures Hashed(rel, digest) == StemOf(rel) + "." + digest + Ext(rel)
    ensures Ext(Hashed(rel, digest)) == Ext(rel) && StemOf(Hashed(rel, digest)) == StemOf(rel) + "." + digest
  {
    var stem, ext := StemOf(rel) + "." + digest, Ext(rel);
    ExtIsPart(rel);
    ExtIs(stem, ext[1..]);
    hide Ext, IsPart;
    assert "." + ext[1..] == ext;
    assert stem + "." + ext[1..] == stem + ("." + ext[1..]) == stem + ext;
    assert Hashed(rel, digest) == stem + ext;
    assert (stem + ext)[..|stem|] == stem;
  }

  /** The same extension leaves the same stem. */
  lemma SplitAt(a: string, part: string, b: string, ext: string)
    requires a + "." + part == b + ext && "." + part == ext
    ensures a == b
  {
    assert a + ("." + part) == b + ext;
    assert a == (b + ext)[..|b|];
  }

  lemma Unhashed(a: string, b: string, d: string, e: string)
    requires |d| == |e| && a + "." + d == b + "." + e
    ensures a == b && d == e
  {
    var s := a + "." + d;
    assert |a| == |b|;
    assert a == s[..|a|] && b == s[..|b|];
    assert d == s[|a| + 1..] && e == s[|b| + 1..];
  }

  /** The hashed name says which file it is of, whatever the digests, with or without extensions. */
  lemma HashedInjective(r: string, q: string, d: string, e: string)
    requires |d| == |e| && IsPart(d) && IsPart(e) && Hashed(r, d) == Hashed(q, e)
    ensures r == q && d == e
  {
    StemAndExt(r);
    StemAndExt(q);
    hide Ext, StemOf, Hashed, IsPart;
    if Ext(r) == "" {
      HashedPlain(r, d);
      ExtIs(r, d);
      if Ext(q) == "" {
        HashedPlain(q, e);
        ExtIs(q, e);
        Unhashed(r, q, d, e);
      } else {
        HashedDotted(q, e);
        SplitAt(r, d, StemOf(q) + "." + e, Ext(q));
        ExtIs(StemOf(q), e);
        assert false;
      }
    } else {
      HashedDotted(r, d);
      if Ext(q) == "" {
        HashedPlain(q, e);
        ExtIs(q, e);
        SplitAt(q, e, StemOf(r) + "." + d, Ext(r));
        ExtIs(StemOf(r), d);
        assert false;
      } else {
        HashedDotted(q, e);
        Unhashed(StemOf(r), StemOf(q), d, e);
      }
    }
  }

  /** URLs of different files differ. */
  lemma UrlInjective(mount: string, r: string, q: string, d: string, e: string)
    requires |d| == |e| && IsPart(d) && IsPart(e)
    ensures UrlOf(mount, r, d) == UrlOf(mount, q, e) <==> r == q && d == e
  {
    if UrlOf(mount, r, d) == UrlOf(mount, q, e) {
      hide Hashed, IsPart;
      var x, y := Hashed(r, d), Hashed(q, e);
      assert x == (mount + x)[|mount|..] && y == (mount + y)[|mount|..];
      HashedInjective(r, q, d, e);
    }
  }

  // ------------------------------------------------------------------------ the mount

  /** The prefix every asset is served under, given or default. */
  function EffectiveMountPath(given: string, default: string): (mount: string)
    requires default != ""
    ensures mount != "" && mount[0] == '/' && mount[|mount| - 1] == '/'
  {
    Trailed(Led(if given != "" then given else default))
  }

  function Led(path: string): string {
    if "/" <= path then path else "/" + path
  }

  function Trailed(path: string): string {
    if HasSuffix(path, "/") then path else path + "/"
  }

  /** What is given, or the default, stands in the mount with no more slashes around it than it lacks. */
  lemma MountKeeps(given: string, default: string)
    requires default != ""
    ensures var path, mount := if given != "" then given else default, EffectiveMountPath(given, default);
      var lead, trail := if path[0] == '/' then "" else "/", if path[|path| - 1] == '/' then "" else "/";
      mount == lead + path + trail
  {
    LedIs(if given != "" then given else default);
    TrailedIs(Led(if given != "" then given else default));
  }

  lemma LedIs(path: string)
    requires path != ""
    ensures Led(path) == (if path[0] == '/' then "" else "/") + path
    ensures Led(path) != "" && Led(path)[|Led(path)| - 1] == path[|path| - 1]
  {
    if path[0] == '/' {
      assert path[..1] == "/" && "" + path == path;
    } else {
      assert path[..1] != "/";
    }
  }

  lemma TrailedIs(path: string)
    requires path != ""
    ensures Trailed(path) == path + if path[|path| - 1] == '/' then "" else "/"
  {
    assert path[|path| - 1..] == [path[|path| - 1]];
    assert path + "" == path;
  }

  function TrimSlash(path: string): string {
    if "/" <= path then path[1..] else path
  }
}

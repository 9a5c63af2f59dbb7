/**
 internal/types/canonical.go: the loop over the runes, against the scanner it computes.
 */
module CanonicalScan {
  import opened Canonical

  /** What is left at i; nothing once i has run past the end. */
  function Rest(s: string, i: nat): string {
    if i <= |s| then s[i..] else ""
  }

  /** Lines 34 to 36 of the source: i comes to rest before the newline. */
  method SkipLine(s: string, start: nat) returns (i: nat)
    requires start + 1 < |s| && s[start + 1] == '/'
    ensures start <= i && Rest(s, i + 1) == AfterLine(s[start + 2..])
  {
    i := start;
    while i + 1 < |s| && s[i + 1] != '\n'
      invariant start <= i < |s|
      invariant i == start || AfterLine(s[i + 1..]) == AfterLine(s[start + 2..])
    {
      i := i + 1;
    }
  }

  /** Lines 39 to 43: i comes to rest on the slash that closes the comment. */
  method SkipBlock(s: string, start: nat) returns (i: nat)
    requires start + 1 < |s|
    ensures start <= i && Rest(s, i + 1) == AfterBlock(s[start + 2..])
  {
    i := start + 2;
    while i + 1 < |s| && !(s[i] == '*' && s[i + 1] == '/')
      invariant start + 2 <= i <= |s|
      invariant AfterBlock(s[i..]) == AfterBlock(s[start + 2..])
    {
      i := i + 1;
    }
    i := i + 1;
  }

  /** Where the string that goes on at i ends, counted in the whole text. */
  function StringEnd(s: string, i: nat, q: char): (end: nat)
    requires i <= |s|
    ensures i <= end <= |s|
    decreases |s| - i
  {
    if i == |s| then i
    else if s[i] == '\\' && i + 1 < |s| then StringEnd(s, i + 2, q)
    else if s[i] == q then i + 1
    else StringEnd(s, i + 1, q)
  }

  lemma {:induction false} StringEndIs(s: string, i: nat, q: char)
    requires i <= |s|
    ensures StringEnd(s, i, q) == i + StringLength(s[i..], q)
    decreases |s| - i
  {
    if i < |s| {
      assert s[i..][1..] == s[i + 1..];
      if s[i] == '\\' && i + 1 < |s| {
        assert s[i..][2..] == s[i + 2..];
        StringEndIs(s, i + 2, q);
      } else if s[i] != q {
        StringEndIs(s, i + 1, q);
      }
    }
  }

  lemma SliceGrows(s: string, from: nat, to: nat)
    requires from <= to < |s|
    ensures s[from..to + 1] == s[from..to] + [s[to]]
  {
  }

  /** Lines 47 to 60: the rest of a string, copied up to the quote that closes it. */
  method CopyString(s: string, start: nat, c: char) returns (i: nat, text: string, prev: char)
    requires start < |s| && c == s[start]
    ensures var end := StringEnd(s, start + 1, c);
      && start <= i && [c] + text == s[start..end] && prev == s[end - 1] && Rest(s, i + 1) == s[end..]
  {
    i, text, prev := start + 1, "", c;
    while i < |s|
      invariant start < i <= |s|
      invariant StringEnd(s, i, c) == StringEnd(s, start + 1, c)
      invariant [c] + text == s[start..i] && prev == s[i - 1]
    {
      SliceGrows(s, start, i);
      ghost var copied := [c] + text;
      if s[i] == '\\' && i + 1 < |s| {
        text := text + [s[i]];
        i := i + 1;
        SliceGrows(s, start, i);
        text := text + [s[i]];
        prev := s[i];
        i := i + 1;
        assert [c] + text == copied + [s[i - 2]] + [s[i - 1]];
        continue;
      }
      text := text + [s[i]];
      prev := s[i];
      assert [c] + text == copied + [s[i]];
      if s[i] == c { return; }
      i := i + 1;
    }
  }

  lemma StepLiteral(s: string, start: nat, prev: char, pending: bool)
    requires start < |s| && IsQuote(s[start])
    ensures var end := StringEnd(s, start + 1, s[start]);
      Step(s[start..], prev, pending)
        == Turn(Gap(prev, pending, s[start]) + s[start..end], s[end..], s[end - 1], false)
  {
    hide StringLength, StringEnd, AfterLine, AfterBlock;
    var left, end := s[start..], StringEnd(s, start + 1, s[start]);
    StringEndIs(s, start + 1, s[start]);
    assert left[1..] == s[start + 1..];
    var n := StringLength(left[1..], s[start]);
    assert end == start + 1 + n;
    assert left[..1 + n] == s[start..end] && left[1 + n..] == s[end..] && left[n] == s[end - 1];
  }

  lemma StepComment(s: string, start: nat, prev: char, pending: bool)
    requires start + 1 < |s| && s[start] == '/'
    ensures s[start + 1] == '/' ==> Step(s[start..], prev, pending) == Turn("", AfterLine(s[start + 2..]), prev, true)
    ensures s[start + 1] == '*' ==> Step(s[start..], prev, pending) == Turn("", AfterBlock(s[start + 2..]), prev, true)
  {
    assert s[start..][2..] == s[start + 2..];
  }

  /** The case of a quote: it is written, then the string behind it. */
  method AdvanceString(s: string, start: nat, prev: char, pending: bool)
    returns (i: nat, text: string, prev': char)
    requires start < |s| && IsQuote(s[start])
    ensures start < i && Turn(text, Rest(s, i), prev', false) == Step(s[start..], prev, pending)
  {
    hide Step, StringEnd, Gap;
    StepLiteral(s, start, prev, pending);
    var copied;
    i, copied, prev' := CopyString(s, start, s[start]);
    text := Gap(prev, pending, s[start]) + ([s[start]] + copied);
    i := i + 1;
  }

  /** The cases that write at most one rune. */
  method AdvanceRune(s: string, start: nat, prev: char, pending: bool)
    returns (text: string, prev': char, pending': bool)
    requires start < |s| && !IsQuote(s[start])
    requires !(s[start] == '/' && start + 1 < |s| && (s[start + 1] == '/' || s[start + 1] == '*'))
    ensures Turn(text, s[start + 1..], prev', pending') == Step(s[start..], prev, pending)
  {
    var c := s[start];
    hide Step, Gap, IsWord;
    if c == ',' {
      text, prev', pending' := Gap(prev, pending, ';') + ";", ';', false;
    } else if IsSpace(c) {
      text, prev', pending' := "", prev, true;
    } else {
      text, prev', pending' := Gap(prev, pending, c) + [c], c, false;
    }
  }

  /** The body of the loop. */
  method Advance(s: string, start: nat, prev: char, pending: bool)
    returns (i: nat, text: string, prev': char, pending': bool)
    requires start < |s|
    ensures start < i && Turn(text, Rest(s, i), prev', pending') == Step(s[start..], prev, pending)
  {
    hide Step, AfterLine, AfterBlock;
    var c := s[start];
    if c == '/' && start + 1 < |s| && s[start + 1] == '/' {
      StepComment(s, start, prev, pending);
      i := SkipLine(s, start);
      return i + 1, "", prev, true;
    }
    if c == '/' && start + 1 < |s| && s[start + 1] == '*' {
      StepComment(s, start, prev, pending);
      i := SkipBlock(s, start);
      return i + 1, "", prev, true;
    }
    pending', i := false, start + 1;
    if IsQuote(c) {
      i, text, prev' := AdvanceString(s, start, prev, pending);
    } else {
      text, prev', pending' := AdvanceRune(s, start, prev, pending);
    }
  }

  method Canonicalize(s: string) returns (out: string)
    ensures out == CanonicalTS(s)
  {
    var b, prev, pending, i := "", NoRune, false, 0;
    assert "" + Scan(Rest(s, 0), NoRune, false) == Scan(s, NoRune, false);
    hide Scan, Step;
    while i < |s|
      invariant b + Scan(Rest(s, i), prev, pending) == Scan(s, NoRune, false)
      decreases |s| - i
    {
      var text;
      i, text, prev, pending := Advance(s, i, prev, pending);
      b := b + text;
    }
    ScanEnds(b, prev, pending);
    out := Finish(b);
  }

  lemma ScanEnds(b: string, prev: char, pending: bool)
    ensures b + Scan("", prev, pending) == b
  {
  }
}

/**
 Values shared by every module: optional results, and the string functions the
 source takes from Go's `strings` package.
 */
module Wrappers {
  datatype Option<+T> = None | Some(value: T)

  datatype Result<+T, +E> = Success(value: T) | Failure(error: E)
}

module Text {

  /** Go's `strings.ReplaceAll` for a non-empty pattern: leftmost, non-overlapping. */
  function ReplaceAll(s: string, pattern: string, replacement: string): string
    requires pattern != ""
  {
    if s == "" then ""
    else if pattern <= s then replacement + ReplaceAll(s[|pattern|..], pattern, replacement)
    else [s[0]] + ReplaceAll(s[1..], pattern, replacement)
  }

  predicate HasSuffix(s: string, suffix: string) {
    |suffix| <= |s| && s[|s| - |suffix|..] == suffix
  }

  function TrimSuffix(s: string, suffix: string): string {
    if HasSuffix(s, suffix) then s[..|s| - |suffix|] else s
  }

  /** `strings.Compare(a, b) < 0`: lexicographic order. */
  predicate Less(a: string, b: string) {
    |b| > 0 &&
    (|a| == 0 || a[0] < b[0] || (a[0] == b[0] && Less(a[1..], b[1..])))
  }

  lemma LessIrreflexive(a: string)
    ensures !Less(a, a)
  {
  }

  lemma {:induction false} LessTotal(a: string, b: string)
    ensures Less(a, b) || a == b || Less(b, a)
  {
    if |a| > 0 && |b| > 0 && a[0] == b[0] {
      LessTotal(a[1..], b[1..]);
      assert a == [a[0]] + a[1..] && b == [b[0]] + b[1..];
    }
  }

  lemma {:induction false} LessTransitive(a: string, b: string, c: string)
    requires Less(a, b) && Less(b, c)
    ensures Less(a, c)
  {
    if |a| > 0 && a[0] == b[0] && b[0] == c[0] {
      LessTransitive(a[1..], b[1..], c[1..]);
    }
  }

  lemma LessAsymmetric(a: string, b: string)
    requires Less(a, b)
    ensures !Less(b, a)
  {
    if Less(b, a) {
      LessTransitive(a, b, a);
      LessIrreflexive(a);
    }
  }

  predicate StrictlySorted(texts: seq<string>) {
    forall i, j :: 0 <= i < j < |texts| ==> Less(texts[i], texts[j])
  }

  /** Adds x to a sorted list that holds each text once. */
  function InsertText(x: string, sorted: seq<string>): seq<string> {
    if sorted == [] || Less(x, sorted[0]) then [x] + sorted
    else if sorted[0] == x then sorted
    else [sorted[0]] + InsertText(x, sorted[1..])
  }

  lemma {:induction false} InsertTextKeeps(x: string, sorted: seq<string>)
    requires StrictlySorted(sorted)
    ensures StrictlySorted(InsertText(x, sorted))
    ensures forall t :: t in InsertText(x, sorted) <==> t == x || t in sorted
  {
    if sorted == [] {
    } else if Less(x, sorted[0]) {
      forall i | 0 <= i < |sorted| ensures Less(x, sorted[i]) {
        if i > 0 { LessTransitive(x, sorted[0], sorted[i]); }
      }
    } else if sorted[0] != x {
      LessTotal(x, sorted[0]);
      InsertTextKeeps(x, sorted[1..]);
      var more := InsertText(x, sorted[1..]);
      assert sorted == [sorted[0]] + sorted[1..];
      forall i | 0 <= i < |more| ensures Less(sorted[0], more[i]) {
        assert more[i] in more;
      }
    }
  }
}

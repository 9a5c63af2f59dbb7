/**
 The two readers of what is written into script elements, pinned down: what a
 browser ends the element at, and what a JSON parser makes of a text.
 */
module IslandTexts {
  import opened Wrappers
  import opened Islands

  /** The word ends a script in either case of each letter, or with the long s, and in no other spelling. */
  lemma ClosesScriptIff(s: string)
    ensures ClosesScript(s) <==>
      && |s| >= 8 && s[0] == '<' && s[1] == '/'
      && (s[2] == 's' || s[2] == 'S' || s[2] == '\U{017F}') && (s[3] == 'c' || s[3] == 'C')
      && (s[4] == 'r' || s[4] == 'R') && (s[5] == 'i' || s[5] == 'I')
      && (s[6] == 'p' || s[6] == 'P') && (s[7] == 't' || s[7] == 'T')
  {
    if |s| >= 8 {
      var w := s[2..];
      assert IsScript(w) <==>
        Folded(w[0]) == 's' && Folded(w[1]) == 'c' && Folded(w[2]) == 'r' &&
        Folded(w[3]) == 'i' && Folded(w[4]) == 'p' && Folded(w[5]) == 't' by { ScriptAt(w); }
    }
  }

  lemma ScriptAt(w: string)
    requires |w| >= 6
    ensures IsScript(w) <==>
      Folded(w[0]) == 's' && Folded(w[1]) == 'c' && Folded(w[2]) == 'r' &&
      Folded(w[3]) == 'i' && Folded(w[4]) == 'p' && Folded(w[5]) == 't'
  {
    hide Folded;
    assert SCRIPT == ['s', 'c', 'r', 'i', 'p', 't'];
  }

  // ------------------------------------------------------------------------- JSON

  const MARKS := [' ', '\t', '\n', '\r', '{', '}', '[', ']', ':', ',', '+', '-', '.', 'E']

  const DIGITS := "0123456789"

  const LETTERS := "abcdefghijklmnopqrstuvwxyz"

  predicate IsPlain(c: char) {
    c in MARKS || c in DIGITS || c in LETTERS
  }

  const HEX := "0123456789abcdefABCDEF"

  /** What a unit is written as: a short escape where section 7 of RFC 8259 has one. */
  function Written(u: Unit): string {
    match u
    case Mark(c) => [c]
    case Open => "\""
    case Close => "\""
    case Code(hex) => "\\u" + hex
    case Rune(c) =>
      if c == '"' then "\\\""
      else if c == '\\' then "\\\\"
      else if c == 8 as char then "\\b"
      else if c == 12 as char then "\\f"
      else if c == '\n' then "\\n"
      else if c == '\r' then "\\r"
      else if c == '\t' then "\\t"
      else [c]
  }

  predicate CanStand(u: Unit, inside: bool) {
    match u
    case Mark(c) => !inside && IsPlain(c)
    case Open => !inside
    case Close => inside
    case Code(hex) => inside && |hex| == 4 && forall c :: c in hex ==> c in HEX
    case Rune(c) => inside && (c >= ' ' || c == 8 as char || c == 12 as char || c == '\n' || c == '\r' || c == '\t')
  }

  function InsideAfter(u: Unit, inside: bool): bool {
    u.Open? || (inside && !u.Close?)
  }

  /** Every unit stands where it can, and no string is left open. */
  predicate AreUnits(us: seq<Unit>, inside: bool) {
    if us == [] then !inside else CanStand(us[0], inside) && AreUnits(us[1..], InsideAfter(us[0], inside))
  }

  function WrittenAll(us: seq<Unit>): string {
    if us == [] then "" else Written(us[0]) + WrittenAll(us[1..])
  }

  lemma PlainIsOutside(c: char)
    ensures IsPlain(c) <==> IsOutside(c)
  {
    IsDigit(c);
    IsLetter(c);
    IsMark(c);
    hide MARKS, DIGITS, LETTERS;
  }

  lemma IsMark(c: char)
    ensures c in MARKS <==>
      (c == ' ' || c == '\t' || c == '\n' || c == '\r' || c == '{' || c == '}' || c == '[' || c == ']' || c == ':' ||
       c == ',' || c == '+' || c == '-' || c == '.' || c == 'E')
  {
  }

  lemma IsDigit(c: char)
    ensures c in DIGITS <==> '0' <= c <= '9'
  {
    if '0' <= c <= '9' { assert DIGITS[c as int - '0' as int] == c; }
  }

  lemma IsLetter(c: char)
    ensures c in LETTERS <==> 'a' <= c <= 'z'
  {
    if 'a' <= c <= 'z' { assert LETTERS[c as int - 'a' as int] == c; }
  }

  lemma HexIs(c: char)
    ensures c in HEX <==> IsHex(c)
  {
    if '0' <= c <= '9' { assert HEX[c as int - '0' as int] == c; }
    if 'a' <= c <= 'f' { assert HEX[c as int - 'a' as int + 10] == c; }
    if 'A' <= c <= 'F' { assert HEX[c as int - 'A' as int + 16] == c; }
  }

  /** What one unit is written as reads as that unit. */
  lemma UnitReads(u: Unit, inside: bool, rest: string)
    requires CanStand(u, inside)
    ensures Units(Written(u) + rest, inside) == Prepend(u, Units(rest, InsideAfter(u, inside)))
  {
    var w := Written(u);
    assert (w + rest)[|w|..] == rest;
    match u
    case Mark(c) =>
      PlainIsOutside(c);
      assert !IsOutside('"');
    case Code(hex) =>
      assert hex == [hex[0], hex[1], hex[2], hex[3]];
      HexIs(hex[0]); HexIs(hex[1]); HexIs(hex[2]); HexIs(hex[3]);
      assert (w + rest)[2..6] == hex;
    case Rune(c) => hide IsOutside, IsHex;
    case _ =>
  }

  /** A JSON text is read as the units it was written from, whichever they are. */
  lemma {:induction false} UnitsOfWritten(us: seq<Unit>, inside: bool)
    requires AreUnits(us, inside)
    ensures Units(WrittenAll(us), inside) == Some(us)
  {
    hide Units, CanStand;
    if us == [] {
      NoUnits();
    } else {
      UnitsOfWritten(us[1..], InsideAfter(us[0], inside));
      UnitReads(us[0], inside, WrittenAll(us[1..]));
      assert us == [us[0]] + us[1..];
    }
  }

  lemma NoUnits()
    ensures Units("", false) == Some([])
  {
  }

  lemma EscapeIsWhole(s: string)
    requires s != "" && s[0] == '\\' && Units(s, true).Some?
    ensures |s| >= 2 && (s[1] == 'u' ==> |s| >= 6)
  {
  }

  lemma CodeStands(hex: string)
    requires |hex| == 4 && IsHex(hex[0]) && IsHex(hex[1]) && IsHex(hex[2]) && IsHex(hex[3])
    ensures CanStand(Code(hex), true)
  {
    hide IsHex, HEX;
    HexIs(hex[0]);
    HexIs(hex[1]);
    HexIs(hex[2]);
    HexIs(hex[3]);
    assert hex == [hex[0], hex[1], hex[2], hex[3]];
  }

  lemma ShortStands(c: char)
    requires Unescaped(c).Some?
    ensures CanStand(Rune(Unescaped(c).value), true)
  {
  }

  lemma EscapeStands(s: string)
    requires |s| >= 2 && s[0] == '\\' && Units(s, true).Some?
    ensures var us, n := Units(s, true).value, if s[1] == 'u' then 6 else 2;
      n <= |s| && us != [] && CanStand(us[0], true) && InsideAfter(us[0], true) && Units(s[n..], true) == Some(us[1..])
  {
    hide Units, CanStand, IsHex, Unescaped;
    EscapeIsWhole(s);
    var n := if s[1] == 'u' then 6 else 2;
    UnitsAfterEscape(s, s[n..]);
    assert s[..n] + s[n..] == s;
    if s[1] == 'u' { CodeStands(s[2..6]); } else { ShortStands(s[1]); }
  }

  lemma CharStands(s: string, inside: bool)
    requires s != "" && !(inside && s[0] == '\\') && Units(s, inside).Some?
    ensures var us, after := Units(s, inside).value, if s[0] == '"' then !inside else inside;
      us != [] && CanStand(us[0], inside) && InsideAfter(us[0], inside) == after && Units(s[1..], after) == Some(us[1..])
  {
    PlainIsOutside(s[0]);
    hide IsPlain, IsOutside;
  }

  /** Only such units are ever read: no bare control character, no stray character outside strings. */
  lemma {:induction false} UnitsCanStand(s: string, inside: bool)
    requires Units(s, inside).Some?
    ensures AreUnits(Units(s, inside).value, inside)
    decreases |s|
  {
    if s != "" {
      var c := s[0];
      if inside && c == '\\' {
        EscapeStands(s);
        UnitsCanStand(s[if s[1] == 'u' then 6 else 2..], true);
      } else {
        CharStands(s, inside);
        UnitsCanStand(s[1..], if c == '"' then !inside else inside);
      }
    }
  }
}

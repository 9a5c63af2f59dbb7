/**
 internal/caching: the key both caches use, the memory cache, and the disk cache
 with its index read at most once.
 */
module Caches {
  import opened Wrappers
  import opened Collections

  datatype CacheKey = CacheKey(component: string, root: string, build: string)

  datatype Rendered = Rendered(js: string, css: string, jsName: string, cssName: string)

  // -------------------------------------------------------------- the text of a key

  function Digit(d: nat): char
    requires d < 10
  {
    "0123456789"[d]
  }

  function Decimal(n: nat): (s: string)
    ensures s != "" && forall i :: 0 <= i < |s| ==> '0' <= s[i] <= '9'
  {
    if n < 10 then [Digit(n)] else Decimal(n / 10) + [Digit(n % 10)]
  }

  function Part(s: string): string {
    Decimal(|s|) + ":" + s
  }

  /** What is hashed into a key: each part behind its length. */
  function KeyText(k: CacheKey): string {
    Part(k.component) + Part(k.root) + Part(k.build)
  }

  method WriteKey(k: CacheKey) returns (text: string)
    ensures text == KeyText(k)
  {
    var parts := [k.component, k.root, k.build];
    text := "";
    for i := 0 to |parts|
      invariant i == 0 ==> text == ""
      invariant i == 1 ==> text == Part(k.component)
      invariant i == 2 ==> text == Part(k.component) + Part(k.root)
      invariant i == 3 ==> text == KeyText(k)
    {
      var was := text;
      text := text + Decimal(|parts[i]|);
      text := text + ":";
      text := text + parts[i];
      assert text == was + Part(parts[i]);
      assert "" + Part(k.component) == Part(k.component);
    }
  }

  lemma DigitInjective(a: nat, b: nat)
    requires a < 10 && b < 10 && Digit(a) == Digit(b)
    ensures a == b
  {
    var digits := "0123456789";
    assert digits[0] == '0' && digits[1] == '1' && digits[2] == '2' && digits[3] == '3' && digits[4] == '4';
    assert digits[5] == '5' && digits[6] == '6' && digits[7] == '7' && digits[8] == '8' && digits[9] == '9';
  }

  lemma LastDigit(n: nat)
    ensures Decimal(n)[|Decimal(n)| - 1] == Digit(n % 10)
    ensures Decimal(n)[..|Decimal(n)| - 1] == if n < 10 then "" else Decimal(n / 10)
  {
  }

  lemma {:induction false} DecimalInjective(a: nat, b: nat)
    requires Decimal(a) == Decimal(b)
    ensures a == b
  {
    var x, y := Decimal(a), Decimal(b);
    LastDigit(a);
    LastDigit(b);
    DigitInjective(a % 10, b % 10);
    if a >= 10 && b >= 10 {
      hide Decimal;
      DecimalInjective(a / 10, b / 10);
    }
  }

  lemma FirstColon(a: string, x: string, i: nat)
    requires i <= |a| && forall j :: 0 <= j < |a| ==> a[j] != ':'
    ensures (a + ":" + x)[i] == ':' <==> i == |a|
  {
  }

  /** Digits end at the first rune that is none. */
  lemma SameDigits(a: string, b: string, x: string, y: string)
    requires forall i :: 0 <= i < |a| ==> a[i] != ':'
    requires forall i :: 0 <= i < |b| ==> b[i] != ':'
    requires a + ":" + x == b + ":" + y
    ensures a == b && x == y
  {
    var shorter := if |a| <= |b| then |a| else |b|;
    FirstColon(a, x, shorter);
    FirstColon(b, y, shorter);
    assert a == (a + ":" + x)[..|a|] && b == (b + ":" + y)[..|b|];
    assert x == (a + ":" + x)[|a| + 1..] && y == (b + ":" + y)[|b| + 1..];
  }

  lemma SamePart(a: string, b: string, x: string, y: string)
    requires Part(a) + x == Part(b) + y
    ensures a == b && x == y
  {
    assert Part(a) + x == Decimal(|a|) + ":" + (a + x);
    assert Part(b) + y == Decimal(|b|) + ":" + (b + y);
    SameDigits(Decimal(|a|), Decimal(|b|), a + x, b + y);
    DecimalInjective(|a|, |b|);
    assert a == (a + x)[..|a|] && b == (b + y)[..|b|];
    assert x == (a + x)[|a|..] && y == (b + y)[|b|..];
  }

  lemma KeyTextNests(k: CacheKey)
    ensures KeyText(k) == Part(k.component) + (Part(k.root) + (Part(k.build) + ""))
  {
    hide Part;
    assert Part(k.build) + "" == Part(k.build);
  }

  /** Two keys are written alike only when component, root and build all agree. */
  lemma KeyTextInjective(j: CacheKey, k: CacheKey)
    ensures KeyText(j) == KeyText(k) <==> j == k
  {
    if KeyText(j) == KeyText(k) {
      hide Part, KeyText;
      KeyTextNests(j);
      KeyTextNests(k);
      SamePart(j.component, k.component, Part(j.root) + (Part(j.build) + ""), Part(k.root) + (Part(k.build) + ""));
      SamePart(j.root, k.root, Part(j.build) + "", Part(k.build) + "");
      SamePart(j.build, k.build, "", "");
    }
  }

  // --------------------------------------------------------------------- shared.go

  /** The selector is the file's own, or an export selected out of it. */
  predicate IsInFile(component: string, file: string) {
    component == file || (file + "#") <= component
  }

  /** The file's own name, or the name of an export selected out of it. */
  ghost predicate IsSelectedFrom(component: string, file: string) {
    component == file || exists e: string :: component == file + "#" + e
  }

  lemma InFileIff(component: string, file: string)
    ensures IsInFile(component, file) <==> IsSelectedFrom(component, file)
  {
    if file + "#" <= component {
      assert component == file + "#" + component[|file + "#"|..];
    }
  }

  /** A name that only begins like the file's is not in it. */
  lemma NeighbourIsNotInFile(file: string, more: string)
    requires more != "" && more[0] != '#'
    ensures !IsInFile(file + more, file)
  {
    assert (file + more)[|file|] == more[0];
  }

  // -------------------------------------------------------------- the memory cache

  /** The by-component index lists the live keys, and nothing else. */
  predicate ListsExactly(byName: map<string, set<CacheKey>>, live: set<CacheKey>) {
    && NoneEmpty(byName)
    && (forall n, k :: n in byName && k in byName[n] ==> k in live && k.component == n)
    && (forall k :: k in live ==> k.component in byName && k in byName[k.component])
  }

  function Without(entries: map<CacheKey, Rendered>, component: string): map<CacheKey, Rendered> {
    map k | k in entries && k.component != component :: entries[k]
  }

  lemma ListedAreItsOwn(entries: map<CacheKey, Rendered>, byName: map<string, set<CacheKey>>, component: string)
    requires ListsExactly(byName, entries.Keys)
    ensures entries - (Held(byName, component) - {}) == Without(entries, component)
    ensures ListsExactly(byName - {component}, Without(entries, component).Keys)
  {
  }

  class MemCache {
    const enabled: bool
    var entries: map<CacheKey, Rendered>
    var byName: SetMap<string, CacheKey>

    ghost predicate Valid()
      reads this, byName
    {
      byName.Valid() && ListsExactly(byName.sets, entries.Keys) && (!enabled ==> entries == map[])
    }

    constructor (on: bool)
      ensures Valid() && enabled == on && entries == map[] && fresh(byName)
    {
      enabled := on;
      entries := map[];
      byName := new SetMap();
    }

    method Get(key: CacheKey) returns (r: Option<Rendered>)
      requires Valid()
      ensures r == if key in entries then Some(entries[key]) else None
    {
      if !enabled || key !in entries { return None; }
      return Some(entries[key]);
    }

    method Put(key: CacheKey, r: Rendered)
      requires Valid()
      modifies this, byName
      ensures Valid() && byName == old(byName)
      ensures entries == if enabled then old(entries)[key := r] else old(entries)
    {
      if !enabled { return; }
      entries := entries[key := r];
      assert entries.Keys == old(entries.Keys) + {key};
      byName.Add(key.component, key);
    }

    /** Removes all of a component's entries and no others. */
    method InvalidateComponent(component: string)
      requires Valid()
      modifies this, byName
      ensures Valid() && byName == old(byName)
      ensures entries == Without(old(entries), component)
    {
      ListedAreItsOwn(entries, byName.sets, component);
      hide ListsExactly, NoneEmpty, Without;
      var left := if component in byName.sets then byName.sets[component] else {};
      while left != {}
        invariant byName == old(byName) && byName.sets == old(byName.sets)
        invariant left <= Held(byName.sets, component)
        invariant entries == old(entries) - (Held(byName.sets, component) - left)
        decreases |left|
      {
        var key :| key in left;
        left := left - {key};
        entries := entries - {key};
        assert entries == old(entries) - (Held(byName.sets, component) - left);
      }
      byName.Drop(component);
    }

    method ComponentsInFile(file: string) returns (out: seq<string>)
      requires Valid()
      ensures forall n :: n in out <==> IsInFile(n, file) && exists k :: k in entries && k.component == n
    {
      out := byName.KeysWhere(n => IsInFile(n, file));
      forall n ensures n in byName.sets <==> exists k :: k in entries && k.component == n {
        if n in byName.sets {
          var k :| k in byName.sets[n];
          assert k in entries && k.component == n;
        }
      }
    }

    method Clear()
      requires Valid()
      modifies this
      ensures Valid() && fresh(byName) && entries == map[]
    {
      entries := map[];
      byName := new SetMap();
    }
  }
}

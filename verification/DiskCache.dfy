/**
 internal/caching/diskcache.go: entries that live in a directory, found through an
 index read from it at most once.
 */
module DiskCaching {
  import opened Wrappers
  import opened Caches

  datatype Manifest = Manifest(
    component: string,
    key: string,
    sources: map<string, string>,  // path to the digest it had
    hasCss: bool,
    jsName: string,
    cssName: string)

  /** The files of one stem: `.meta.json`, `.js` and `.css`. */
  datatype Slot = Slot(manifest: Option<Manifest>, js: Option<string>, css: Option<string>)

  type Directory = map<string, Slot>

  // ------------------------------------------------------------ recorded digests

  /** What a manifest records of the sources: those that could be hashed. */
  function Recorded(sources: seq<string>, digests: map<string, string>): map<string, string> {
    map s | s in sources && s in digests :: digests[s]
  }

  /** An entry that recorded nothing never holds. */
  predicate Holds(recorded: map<string, string>, digests: map<string, string>) {
    recorded != map[] && forall s :: s in recorded ==> s in digests && digests[s] == recorded[s]
  }

  /** A record holds as long as no source that could be hashed has changed, and there was one. */
  lemma HoldsIff(sources: seq<string>, was: map<string, string>, now: map<string, string>)
    ensures Holds(Recorded(sources, was), now) <==>
      && (exists i :: 0 <= i < |sources| && sources[i] in was)
      && forall i :: 0 <= i < |sources| && sources[i] in was ==> sources[i] in now && now[sources[i]] == was[sources[i]]
  {
    var recorded := Recorded(sources, was);
    forall i | 0 <= i < |sources| && sources[i] in was
      ensures sources[i] in recorded && recorded[sources[i]] == was[sources[i]]
    {
      assert sources[i] in sources;
    }
    if recorded != map[] {
      var s :| s in recorded;
      assert exists i :: 0 <= i < |sources| && sources[i] == s;
    }
  }

  // ---------------------------------------------------- a cache that always rescans

  predicate Lists(files: Directory, stem: string, key: string) {
    stem in files && files[stem].manifest.Some? && key != "" && files[stem].manifest.value.key == key
  }

  predicate IsListed(files: Directory, stem: string) {
    stem in files && files[stem].manifest.Some? && files[stem].manifest.value.key != ""
  }

  /** Where a scan of the directory finds a key. */
  function Rescan(files: Directory, key: string): set<string> {
    set stem | stem in files && Lists(files, stem, key)
  }

  function ReadSlot(slot: Slot, digests: map<string, string>): Option<Rendered> {
    if slot.manifest.None? || !Holds(slot.manifest.value.sources, digests) || slot.js.None? then None
    else
      var man := slot.manifest.value;
      var styled := man.hasCss && slot.css.Some?;
      Some(Rendered(slot.js.value, if styled then slot.css.value else "", man.jsName, if styled then man.cssName else ""))
  }

  /** A style recorded but lost is left out with its name; a script lost is a miss. */
  lemma LostPartIs(slot: Slot, digests: map<string, string>)
    requires slot.manifest.Some? && Holds(slot.manifest.value.sources, digests)
    ensures slot.js.None? ==> ReadSlot(slot, digests) == None
    ensures slot.js.Some? && slot.css.None? ==>
      ReadSlot(slot, digests) == Some(Rendered(slot.js.value, "", slot.manifest.value.jsName, ""))
    ensures slot.js.Some? && slot.css.Some? && slot.manifest.value.hasCss ==>
      ReadSlot(slot, digests) ==
        Some(Rendered(slot.js.value, slot.css.value, slot.manifest.value.jsName, slot.manifest.value.cssName))
    ensures slot.js.Some? && !slot.manifest.value.hasCss ==>
      ReadSlot(slot, digests) == Some(Rendered(slot.js.value, "", slot.manifest.value.jsName, ""))
  {
    hide Holds;
  }

  function ManifestOf(k: CacheKey, r: Rendered, recorded: map<string, string>): Manifest {
    Manifest(k.component, KeyText(k), recorded, r.css != "", r.jsName, r.cssName)
  }

  function Written(files: Directory, stem: string, man: Manifest, r: Rendered): Directory {
    var css := if r.css != "" then Some(r.css) else if stem in files then files[stem].css else None;
    files[stem := Slot(Some(man), Some(r.js), css)]
  }

  /** Its script and style where they are looked for; with no style an older file of one is left, and not read. */
  lemma WrittenIsRead(files: Directory, stem: string, man: Manifest, r: Rendered, other: string)
    ensures var now := Written(files, stem, man, r);
      && now[stem].manifest == Some(man) && now[stem].js == Some(r.js)
      && (r.css != "" ==> now[stem].css == Some(r.css))
      && (r.css == "" && stem in files ==> now[stem].css == files[stem].css)
      && (r.css == "" && stem !in files ==> now[stem].css == None)
      && (other != stem ==> (other in now <==> other in files) && (other in files ==> now[other] == files[other]))
  {
  }

  /** A manifest that names no key is never found, and never cleared away. */
  lemma KeylessIsUnlisted(files: Directory, stem: string, key: string, component: string)
    requires stem in files && files[stem].manifest.Some? && files[stem].manifest.value.key == ""
    ensures stem !in Rescan(files, key) && !IsListed(files, stem)
    ensures stem in Cleared(files, component) && Cleared(files, component)[stem] == files[stem]
  {
  }

  /** Everything but the listed entries of a component. */
  function Cleared(files: Directory, component: string): Directory {
    map stem | stem in files && !IsListedFor(files, stem, component) :: files[stem]
  }

  predicate IsListedFor(files: Directory, stem: string, component: string) {
    IsListed(files, stem) && files[stem].manifest.value.component == component
  }

  /** An entry is filed under its own key's stem. */
  ghost predicate IsFiled(stemOf: CacheKey -> string, stem: string, man: Manifest) {
    exists k :: man.key == KeyText(k) && man.component == k.component && stem == stemOf(k)
  }

  ghost predicate WellFiled(stemOf: CacheKey -> string, files: Directory) {
    forall stem :: IsListed(files, stem) ==> IsFiled(stemOf, stem, files[stem].manifest.value)
  }

  /** Distinct keys have distinct stems. */
  ghost predicate StemsDiffer(stemOf: CacheKey -> string) {
    forall j, k :: stemOf(j) == stemOf(k) ==> j == k
  }

  /** Stems that spell out the key do. */
  lemma KeyTextsDiffer()
    ensures StemsDiffer((k: CacheKey) => KeyText(k))
  {
    forall j, k | KeyText(j) == KeyText(k) ensures j == k {
      KeyTextInjective(j, k);
    }
  }

  lemma FiledAt(stemOf: CacheKey -> string, files: Directory, stem: string, k: CacheKey)
    requires WellFiled(stemOf, files) && Lists(files, stem, KeyText(k))
    ensures stem == stemOf(k) && files[stem].manifest.value.component == k.component
  {
    assert IsListed(files, stem);
    var j :| files[stem].manifest.value.key == KeyText(j) && files[stem].manifest.value.component == j.component
      && stem == stemOf(j);
    KeyTextInjective(j, k);
  }

  lemma FiledOnce(stemOf: CacheKey -> string, files: Directory, a: string, b: string, key: string)
    requires WellFiled(stemOf, files) && Lists(files, a, key) && Lists(files, b, key)
    ensures a == b
  {
    assert IsListed(files, a);
    var k :| key == KeyText(k) && files[a].manifest.value.component == k.component && a == stemOf(k);
    FiledAt(stemOf, files, b, k);
  }

  lemma KeyTextNotEmpty(k: CacheKey)
    ensures KeyText(k) != ""
  {
    assert Part(k.component) != "";
  }

  /** What is written under a stem replaces at most the same key's entry. */
  lemma WrittenLists(stemOf: CacheKey -> string, files: Directory, k: CacheKey, r: Rendered,
                     recorded: map<string, string>, stem: string, key: string)
    requires StemsDiffer(stemOf) && WellFiled(stemOf, files)
    ensures var now := Written(files, stemOf(k), ManifestOf(k, r, recorded), r);
      Lists(now, stem, key) <==> if key == KeyText(k) then stem == stemOf(k) else Lists(files, stem, key)
  {
    KeyTextNotEmpty(k);
    hide KeyText;
    if stem == stemOf(k) && Lists(files, stem, key) {
      assert IsListed(files, stem);
      var j :| files[stem].manifest.value.key == KeyText(j) && files[stem].manifest.value.component == j.component
        && stem == stemOf(j);
    }
    if stem != stemOf(k) && Lists(files, stem, key) && key == KeyText(k) { FiledAt(stemOf, files, stem, k); }
  }

  lemma WrittenIsFiled(stemOf: CacheKey -> string, files: Directory, k: CacheKey, r: Rendered,
                       recorded: map<string, string>)
    requires WellFiled(stemOf, files)
    ensures WellFiled(stemOf, Written(files, stemOf(k), ManifestOf(k, r, recorded), r))
  {
    hide KeyText;
    var now := Written(files, stemOf(k), ManifestOf(k, r, recorded), r);
    forall stem | IsListed(now, stem) ensures IsFiled(stemOf, stem, now[stem].manifest.value) {
      if stem != stemOf(k) { assert IsListed(files, stem); }
    }
  }

  /**
   What is put comes back, now or later, exactly while its record holds, and nothing
   else is found differently.
   */
  lemma PutThenGet(stemOf: CacheKey -> string, files: Directory, k: CacheKey, r: Rendered, sources: seq<string>,
                   digests: map<string, string>, later: map<string, string>, other: CacheKey)
    requires StemsDiffer(stemOf) && WellFiled(stemOf, files) && (r.css == "" ==> r.cssName == "")
    ensures WellFiled(stemOf, Written(files, stemOf(k), ManifestOf(k, r, Recorded(sources, digests)), r))
    ensures var now := Written(files, stemOf(k), ManifestOf(k, r, Recorded(sources, digests)), r);
      && Rescan(now, KeyText(k)) == {stemOf(k)}
      && ReadSlot(now[stemOf(k)], later) == (if Holds(Recorded(sources, digests), later) then Some(r) else None)
      && (other != k ==> Rescan(now, KeyText(other)) == Rescan(files, KeyText(other)) &&
                         forall s :: s in Rescan(files, KeyText(other)) ==> s in now && now[s] == files[s])
  {
    var recorded := Recorded(sources, digests);
    var now := Written(files, stemOf(k), ManifestOf(k, r, recorded), r);
    KeyTextInjective(k, other);
    WrittenIsFiled(stemOf, files, k, r, recorded);
    hide KeyText, WellFiled, Lists, StemsDiffer;
    forall stem: string
      ensures Lists(now, stem, KeyText(k)) <==> stem == stemOf(k)
      ensures other != k ==> (Lists(now, stem, KeyText(other)) <==> Lists(files, stem, KeyText(other)))
    {
      WrittenLists(stemOf, files, k, r, recorded, stem, KeyText(k));
      WrittenLists(stemOf, files, k, r, recorded, stem, KeyText(other));
    }
    forall s | other != k && s in Rescan(files, KeyText(other)) ensures s in now && now[s] == files[s] {
      FiledElsewhere(stemOf, files, s, k, other);
    }
    RescanIs(now, KeyText(k));
    RescanIs(now, KeyText(other));
    RescanIs(files, KeyText(other));
  }

  lemma RescanIs(files: Directory, key: string)
    ensures forall stem :: stem in Rescan(files, key) <==> Lists(files, stem, key)
  {
  }

  lemma FiledElsewhere(stemOf: CacheKey -> string, files: Directory, s: string, k: CacheKey, other: CacheKey)
    requires StemsDiffer(stemOf) && WellFiled(stemOf, files) && other != k && Lists(files, s, KeyText(other))
    ensures s != stemOf(k)
  {
    FiledAt(stemOf, files, s, other);
  }

  /** Invalidating a component loses all its entries, and no other key's. */
  lemma InvalidateThenGet(stemOf: CacheKey -> string, files: Directory, component: string, k: CacheKey)
    requires WellFiled(stemOf, files)
    ensures WellFiled(stemOf, Cleared(files, component))
    ensures Rescan(Cleared(files, component), KeyText(k))
         == if k.component == component then {} else Rescan(files, KeyText(k))
    ensures forall s :: s in Cleared(files, component) ==> Cleared(files, component)[s] == files[s]
  {
    hide KeyText;
    var now := Cleared(files, component);
    forall stem | IsListed(now, stem) ensures IsFiled(stemOf, stem, now[stem].manifest.value) {
      assert IsListed(files, stem);
    }
    forall stem: string
      ensures Lists(now, stem, KeyText(k)) <==> k.component != component && Lists(files, stem, KeyText(k))
    {
      if Lists(files, stem, KeyText(k)) { FiledAt(stemOf, files, stem, k); }
    }
  }
}

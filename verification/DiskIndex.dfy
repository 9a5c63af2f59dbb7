/**
 internal/caching/diskcache.go: the cache itself, with its index read at most once.
 */
module DiskIndex {
  import opened Wrappers
  import opened Collections
  import opened Caches
  import opened DiskCaching

  /** What the index holds is in the directory, under its component and nowhere else. */
  predicate IsSound(byKey: map<string, string>, byComponent: map<string, set<string>>, files: Directory) {
    && NoneEmpty(byComponent)
    && (forall key :: key in byKey ==> Lists(files, byKey[key], key))
    && (forall key :: key in byKey ==> key in Held(byComponent, files[byKey[key]].manifest.value.component))
    && (forall c, key :: c in byComponent && key in byComponent[c] ==>
          key in byKey && files[byKey[key]].manifest.value.component == c)
  }

  /** What is in the directory is in the index. */
  ghost predicate IsComplete(byKey: map<string, string>, files: Directory) {
    forall stem :: IsListed(files, stem) ==> files[stem].manifest.value.key in byKey
  }

  lemma IndexIsRescan(stemOf: CacheKey -> string, byKey: map<string, string>, byComponent: map<string, set<string>>,
                      files: Directory, key: string)
    requires WellFiled(stemOf, files) && IsSound(byKey, byComponent, files) && IsComplete(byKey, files)
    ensures Rescan(files, key) == if key in byKey then {byKey[key]} else {}
  {
    forall stem | Lists(files, stem, key) ensures key in byKey && byKey[key] == stem {
      assert IsListed(files, stem);
      FiledOnce(stemOf, files, stem, byKey[key], key);
    }
  }

  lemma SoundAdds(stemOf: CacheKey -> string, byKey: map<string, string>, byComponent: map<string, set<string>>,
                  files: Directory, stem: string)
    requires WellFiled(stemOf, files) && IsSound(byKey, byComponent, files) && IsListed(files, stem)
    ensures var man := files[stem].manifest.value;
      IsSound(byKey[man.key := stem], byComponent[man.component := Held(byComponent, man.component) + {man.key}], files)
  {
    var man := files[stem].manifest.value;
    if man.key in byKey { FiledOnce(stemOf, files, stem, byKey[man.key], man.key); }
  }

  lemma SoundWritten(stemOf: CacheKey -> string, byKey: map<string, string>, byComponent: map<string, set<string>>,
                     files: Directory, k: CacheKey, r: Rendered, recorded: map<string, string>)
    requires StemsDiffer(stemOf) && WellFiled(stemOf, files) && IsSound(byKey, byComponent, files)
    ensures IsSound(byKey, byComponent, Written(files, stemOf(k), ManifestOf(k, r, recorded), r))
    ensures IsComplete(byKey, files) ==>
      IsComplete(byKey[KeyText(k) := stemOf(k)], Written(files, stemOf(k), ManifestOf(k, r, recorded), r))
  {
    hide KeyText, StemsDiffer, WellFiled;
    var now := Written(files, stemOf(k), ManifestOf(k, r, recorded), r);
    forall key | key in byKey
      ensures Lists(now, byKey[key], key)
      ensures now[byKey[key]].manifest.value.component == files[byKey[key]].manifest.value.component
    {
      WrittenLists(stemOf, files, k, r, recorded, byKey[key], key);
      if key == KeyText(k) { FiledAt(stemOf, files, byKey[key], k); }
    }
  }

  class DiskCache {
    const enabled: bool
    const stemOf: CacheKey -> string
    var files: Directory
    var indexed: bool
    var byKey: map<string, string>
    const byComponent: SetMap<string, string>

    ghost predicate Valid()
      reads this, byComponent
    {
      && byComponent.Valid() && StemsDiffer(stemOf) && WellFiled(stemOf, files)
      && IsSound(byKey, byComponent.sets, files)
      && (indexed ==> IsComplete(byKey, files))
    }

    /** A cache over whatever an earlier process left in the directory. */
    constructor (on: bool, stems: CacheKey -> string, found: Directory)
      requires StemsDiffer(stems) && WellFiled(stems, found)
      ensures Valid() && enabled == on && stemOf == stems && files == found && fresh(byComponent)
    {
      enabled, stemOf, files, indexed, byKey := on, stems, found, false, map[];
      byComponent := new SetMap();
    }

    method Index(stem: string)
      requires byComponent.Valid() && WellFiled(stemOf, files) && IsSound(byKey, byComponent.sets, files)
      requires IsListed(files, stem)
      modifies this`byKey, byComponent
      ensures byComponent.Valid() && IsSound(byKey, byComponent.sets, files)
      ensures byKey == old(byKey)[files[stem].manifest.value.key := stem]
    {
      SoundAdds(stemOf, byKey, byComponent.sets, files, stem);
      hide IsSound, WellFiled;
      var man := files[stem].manifest.value;
      byKey := byKey[man.key := stem];
      byComponent.Add(man.component, man.key);
    }

    method ScanDirectory()
      requires byComponent.Valid() && WellFiled(stemOf, files) && IsSound(byKey, byComponent.sets, files)
      modifies this`byKey, byComponent
      ensures byComponent.Valid() && IsSound(byKey, byComponent.sets, files)
      ensures forall stem :: IsListed(files, stem) ==> files[stem].manifest.value.key in byKey
    {
      hide IsSound, WellFiled;
      var left := files.Keys;
      while left != {}
        invariant left <= files.Keys
        invariant byComponent.Valid() && IsSound(byKey, byComponent.sets, files)
        invariant forall stem :: IsListed(files, stem) && stem !in left ==> files[stem].manifest.value.key in byKey
        decreases |left|
      {
        var stem :| stem in left;
        left := left - {stem};
        if IsListed(files, stem) { Index(stem); }
      }
    }

    method EnsureIndex()
      requires Valid()
      modifies this`indexed, this`byKey, byComponent
      ensures Valid() && indexed
    {
      hide IsSound, WellFiled, StemsDiffer;
      if indexed { return; }
      indexed := true;
      ScanDirectory();
    }

    /** Reads what a scan of the directory would find, if its sources still hold. */
    method Get(key: CacheKey, digests: map<string, string>) returns (r: Option<Rendered>)
      requires Valid()
      modifies this`indexed, this`byKey, byComponent
      ensures Valid()
      ensures forall stem :: enabled && stem in Rescan(files, KeyText(key)) ==> r == ReadSlot(files[stem], digests)
      ensures !enabled || Rescan(files, KeyText(key)) == {} ==> r == None
    {
      if !enabled { return None; }
      EnsureIndex();
      IndexIsRescan(stemOf, byKey, byComponent.sets, files, KeyText(key));
      hide IsSound, WellFiled, StemsDiffer, IsComplete, KeyText;
      var text := WriteKey(key);
      if text !in byKey { return None; }
      var slot := files[byKey[text]];
      r := ReadSlot(slot, digests);
    }

    method Put(key: CacheKey, r: Rendered, sources: seq<string>, digests: map<string, string>)
      requires Valid()
      modifies this`files, this`byKey, byComponent
      ensures Valid() && indexed == old(indexed)
      ensures files == if !enabled then old(files)
                       else Written(old(files), stemOf(key), ManifestOf(key, r, Recorded(sources, digests)), r)
    {
      if !enabled { return; }
      var man := ManifestOf(key, r, Recorded(sources, digests));
      SoundWritten(stemOf, byKey, byComponent.sets, files, key, r, Recorded(sources, digests));
      KeyTextNotEmpty(key);
      hide IsSound, WellFiled, StemsDiffer, KeyText, IsComplete;
      files := Written(files, stemOf(key), man, r);
      Index(stemOf(key));
    }

    /** The loop over a component's keys. */
    method RemoveEntries(keys: set<string>) returns (removed: nat)
      requires HaveOwnStems(byKey, keys)
      modifies this`files, this`byKey
      ensures byKey == old(byKey) - keys
      ensures files == old(files) - StemsOf(old(byKey), keys) && removed == |StemsOf(old(byKey), keys)|
    {
      hide HaveOwnStems, StemsOf;
      removed := 0;
      var left := keys;
      StemsNone(byKey);
      while left != {}
        invariant left <= keys
        invariant byKey == old(byKey) - (keys - left)
        invariant files == old(files) - StemsOf(old(byKey), keys - left)
        invariant removed == |StemsOf(old(byKey), keys - left)|
        decreases |left|
      {
        var key :| key in left;
        StemsMore(old(byKey), keys, left, key);
        left := left - {key};
        if key in byKey {
          files := files - {byKey[key]};
          byKey := byKey - {key};
          removed := removed + 1;
        }
      }
      assert keys - left == keys;
    }

    /** Removes every listed entry of the component, and counts them. */
    method InvalidateComponent(component: string) returns (removed: nat)
      requires Valid()
      modifies this`files, this`indexed, this`byKey, byComponent
      ensures Valid()
      ensures files == if enabled then Cleared(old(files), component) else old(files)
      ensures removed == if enabled then |ListedFor(old(files), component)| else 0
    {
      if !enabled { return 0; }
      EnsureIndex();
      ListedAre(stemOf, byKey, byComponent.sets, files, component);
      ClearedIsComplete(stemOf, byKey, byComponent.sets, files, component);
      hide IsSound, WellFiled, StemsDiffer, IsComplete, ListedFor, Cleared, HaveOwnStems, StemsOf;
      removed := RemoveEntries(if component in byComponent.sets then byComponent.sets[component] else {});
      byComponent.Drop(component);
    }

    method ComponentsInFile(file: string) returns (out: seq<string>)
      requires Valid()
      modifies this`indexed, this`byKey, byComponent
      ensures Valid()
      ensures forall n :: n in out <==> enabled && IsInFile(n, file) && ListedFor(files, n) != {}
    {
      if !enabled { return []; }
      EnsureIndex();
      out := byComponent.KeysWhere(n => IsInFile(n, file));
      forall n: string ensures n in byComponent.sets <==> ListedFor(files, n) != {} {
        ListedAre(stemOf, byKey, byComponent.sets, files, n);
        HasStems(byKey, byComponent.sets, files, n);
      }
    }
  }

  /** The stems of a component's listed entries. */
  function ListedFor(files: Directory, component: string): set<string> {
    set stem | stem in files && IsListedFor(files, stem, component)
  }

  function StemsOf(byKey: map<string, string>, keys: set<string>): set<string> {
    set key | key in keys && key in byKey :: byKey[key]
  }

  /** Every key is indexed, no two at one stem. */
  predicate HaveOwnStems(byKey: map<string, string>, keys: set<string>) {
    && (forall key :: key in keys ==> key in byKey)
    && (forall j, k :: j in keys && k in keys && byKey[j] == byKey[k] ==> j == k)
  }

  lemma StemsNone(byKey: map<string, string>)
    ensures forall keys: set<string> :: StemsOf(byKey, keys - keys) == {}
  {
  }

  lemma StemsMore(byKey: map<string, string>, keys: set<string>, left: set<string>, key: string)
    requires HaveOwnStems(byKey, keys) && left <= keys && key in left
    ensures key in byKey && byKey[key] !in StemsOf(byKey, keys - left)
    ensures keys - (left - {key}) == (keys - left) + {key}
    ensures StemsOf(byKey, keys - (left - {key})) == StemsOf(byKey, keys - left) + {byKey[key]}
  {
  }

  lemma ListedAre(stemOf: CacheKey -> string, byKey: map<string, string>, byComponent: map<string, set<string>>,
                  files: Directory, component: string)
    requires WellFiled(stemOf, files) && IsSound(byKey, byComponent, files) && IsComplete(byKey, files)
    ensures HaveOwnStems(byKey, Held(byComponent, component))
    ensures StemsOf(byKey, Held(byComponent, component)) == ListedFor(files, component)
    ensures files - ListedFor(files, component) == Cleared(files, component)
  {
    var keys := Held(byComponent, component);
    forall stem | IsListedFor(files, stem, component) ensures stem in StemsOf(byKey, keys) {
      var key := files[stem].manifest.value.key;
      IndexIsRescan(stemOf, byKey, byComponent, files, key);
      assert stem in Rescan(files, key);
    }
  }

  lemma HasStems(byKey: map<string, string>, byComponent: map<string, set<string>>, files: Directory, component: string)
    requires IsSound(byKey, byComponent, files)
    ensures component in byComponent <==> StemsOf(byKey, Held(byComponent, component)) != {}
  {
    if component in byComponent {
      var key :| key in byComponent[component];
      assert byKey[key] in StemsOf(byKey, byComponent[component]);
    }
  }

  /** A key of another component keeps its entry, and its place in the index. */
  lemma KeyStays(byKey: map<string, string>, byComponent: map<string, set<string>>, files: Directory,
                 component: string, key: string)
    requires IsSound(byKey, byComponent, files) && key in byKey && key !in Held(byComponent, component)
    ensures var stem, now := byKey[key], Cleared(files, component);
      && Lists(now, stem, key) && now[stem] == files[stem]
      && key in Held(byComponent - {component}, files[stem].manifest.value.component)
  {
    assert Lists(files, byKey[key], key);
  }

  lemma ClearedIsSound(byKey: map<string, string>, byComponent: map<string, set<string>>, files: Directory,
                       component: string)
    requires IsSound(byKey, byComponent, files)
    ensures IsSound(byKey - Held(byComponent, component), byComponent - {component}, Cleared(files, component))
  {
    var now, left, others := Cleared(files, component), byKey - Held(byComponent, component), byComponent - {component};
    forall key | key in left
      ensures Lists(now, left[key], key) && key in Held(others, now[left[key]].manifest.value.component)
    {
      KeyStays(byKey, byComponent, files, component, key);
    }
    forall c, key | c in others && key in others[c]
      ensures key in left && now[left[key]].manifest.value.component == c
    {
      assert c in byComponent && key in byComponent[c];
      KeyStays(byKey, byComponent, files, component, key);
    }
  }

  lemma ClearedIsComplete(stemOf: CacheKey -> string, byKey: map<string, string>,
                          byComponent: map<string, set<string>>, files: Directory, component: string)
    requires WellFiled(stemOf, files) && IsSound(byKey, byComponent, files) && IsComplete(byKey, files)
    ensures var now := Cleared(files, component);
      && WellFiled(stemOf, now) && IsComplete(byKey - Held(byComponent, component), now)
      && IsSound(byKey - Held(byComponent, component), byComponent - {component}, now)
  {
    var now := Cleared(files, component);
    ClearedIsSound(byKey, byComponent, files, component);
    InvalidateThenGet(stemOf, files, component, CacheKey("", "", ""));
    forall stem | IsListed(now, stem)
      ensures now[stem].manifest.value.key in byKey - Held(byComponent, component)
    {
      var key := now[stem].manifest.value.key;
      assert IsListed(files, stem);
      IndexIsRescan(stemOf, byKey, byComponent, files, key);
      assert stem in Rescan(files, key);
    }
  }
}

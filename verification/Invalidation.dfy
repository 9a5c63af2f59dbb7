/**
 bundler.go: the two caches and the index together, and what an event removes from
 them. The artifacts a bundling gives are parameters.
 */
module Invalidation {
  import opened Wrappers
  import opened Collections
  import opened Caches
  import opened DiskCaching
  import opened DiskIndex

  /** Memory entries of components outside the set. */
  function Outside(entries: map<CacheKey, Rendered>, gone: set<string>): map<CacheKey, Rendered> {
    map k | k in entries && k.component !in gone :: entries[k]
  }

  /** Files but those of listed entries of the components in the set. */
  function FilesOutside(files: Directory, gone: set<string>): Directory {
    map stem | stem in files && !(IsListed(files, stem) && files[stem].manifest.value.component in gone) :: files[stem]
  }

  /** Memory entries not backed by a component file. */
  function OutsideFile(entries: map<CacheKey, Rendered>, file: string): map<CacheKey, Rendered> {
    map k | k in entries && !IsInFile(k.component, file) :: entries[k]
  }

  function FilesOutsideFile(files: Directory, file: string): Directory {
    map stem | stem in files && !(IsListed(files, stem) && IsInFile(files[stem].manifest.value.component, file)) ::
      files[stem]
  }

  lemma OutsideMore(entries: map<CacheKey, Rendered>, gone: set<string>, component: string)
    ensures Without(Outside(entries, gone), component) == Outside(entries, gone + {component})
  {
  }

  lemma FilesOutsideMore(files: Directory, gone: set<string>, component: string)
    ensures Cleared(FilesOutside(files, gone), component) == FilesOutside(files, gone + {component})
  {
  }

  lemma OutsideNone(entries: map<CacheKey, Rendered>, files: Directory)
    ensures Outside(entries, {}) == entries && FilesOutside(files, {}) == files
  {
  }

  /** Removing every listed component of a file, and then the file's own, removes the file's. */
  lemma OutsideIsOutsideFile(entries: map<CacheKey, Rendered>, first: set<string>, second: set<string>, file: string)
    requires forall n :: n in first <==> IsInFile(n, file) && exists k :: k in entries && k.component == n
    requires forall n :: n in second ==> IsInFile(n, file)
    ensures Without(Outside(Outside(entries, first), second), file) == OutsideFile(entries, file)
  {
  }

  lemma FilesOutsideIsOutsideFile(files: Directory, first: set<string>, second: set<string>, file: string)
    requires forall n :: n in first ==> IsInFile(n, file)
    requires forall n :: n in second <==> IsInFile(n, file) && ListedFor(FilesOutside(files, first), n) != {}
    ensures Cleared(FilesOutside(FilesOutside(files, first), second), file) == FilesOutsideFile(files, file)
  {
    var now := FilesOutside(files, first);
    forall stem | stem in now && IsListed(now, stem) && IsInFile(now[stem].manifest.value.component, file)
      ensures now[stem].manifest.value.component in second
    {
      assert stem in ListedFor(now, now[stem].manifest.value.component);
    }
  }

  /** A manifest of something selected out of the file stands under the stem. */
  ghost predicate ListsSelected(files: Directory, stem: string, file: string) {
    IsListed(files, stem) && IsSelectedFrom(files[stem].manifest.value.component, file)
  }

  lemma OutsideFileIff(entries: map<CacheKey, Rendered>, file: string)
    ensures forall k :: k in OutsideFile(entries, file) <==> k in entries && !IsSelectedFrom(k.component, file)
  {
    forall k ensures k in OutsideFile(entries, file) <==> k in entries && !IsSelectedFrom(k.component, file) {
      InFileIff(k.component, file);
    }
  }

  lemma FilesOutsideFileIff(files: Directory, file: string)
    ensures forall stem :: stem in FilesOutsideFile(files, file) <==> stem in files && !ListsSelected(files, stem, file)
  {
    forall stem ensures stem in FilesOutsideFile(files, file) <==> stem in files && !ListsSelected(files, stem, file) {
      if IsListed(files, stem) { InFileIff(files[stem].manifest.value.component, file); }
    }
  }

  class Bundler {
    const mem: MemCache
    const disk: DiskCache
    const index: DependencyIndex

    ghost predicate Valid()
      reads this, mem, mem.byName, disk, disk.byComponent, index, index.bySource
    {
      && mem.Valid() && disk.Valid() && index.Valid()
      && mem.byName as object != disk.byComponent as object
      && mem.byName as object != index.bySource as object
      && disk.byComponent != index.bySource
    }

    constructor (m: MemCache, d: DiskCache, i: DependencyIndex)
      requires m.Valid() && d.Valid() && i.Valid()
      requires m.byName as object != d.byComponent as object && m.byName as object != i.bySource as object
      requires d.byComponent != i.bySource
      ensures mem == m && disk == d && index == i && Valid()
    {
      mem, disk, index := m, d, i;
    }

    method InvalidateComponent(component: string)
      requires Valid()
      modifies mem, mem.byName, disk, disk.byComponent
      ensures Valid() && mem.byName == old(mem.byName)
      ensures mem.entries == Without(old(mem.entries), component)
      ensures disk.files == if disk.enabled then Cleared(old(disk.files), component) else old(disk.files)
    {
      var _ := disk.InvalidateComponent(component);
      mem.InvalidateComponent(component);
    }

    method InvalidateAll(components: seq<string>)
      requires Valid()
      modifies mem, mem.byName, disk, disk.byComponent
      ensures Valid() && mem.byName == old(mem.byName)
      ensures mem.entries == Outside(old(mem.entries), set c | c in components)
      ensures disk.files == if disk.enabled then FilesOutside(old(disk.files), set c | c in components)
                            else old(disk.files)
    {
      hide Outside, FilesOutside, Without, Cleared;
      OutsideNone(mem.entries, disk.files);
      ghost var gone := {};
      for i := 0 to |components|
        invariant Valid() && mem.byName == old(mem.byName)
        invariant gone == set c | c in components[..i]
        invariant mem.entries == Outside(old(mem.entries), gone)
        invariant disk.files == if disk.enabled then FilesOutside(old(disk.files), gone) else old(disk.files)
      {
        assert components[..i + 1] == components[..i] + [components[i]];
        OutsideMore(old(mem.entries), gone, components[i]);
        FilesOutsideMore(old(disk.files), gone, components[i]);
        InvalidateComponent(components[i]);
        gone := gone + {components[i]};
      }
      assert components[..|components|] == components;
    }

    /** Nothing selected out of the file stays in either cache; nothing else goes. */
    method InvalidateComponentFile(file: string)
      requires Valid()
      modifies mem, mem.byName, disk, disk.byComponent
      ensures Valid() && mem.byName == old(mem.byName)
      ensures mem.entries == OutsideFile(old(mem.entries), file)
      ensures disk.files == if disk.enabled then FilesOutsideFile(old(disk.files), file) else old(disk.files)
      ensures forall k :: k in mem.entries <==> k in old(mem.entries) && !IsSelectedFrom(k.component, file)
      ensures disk.enabled ==> forall stem :: stem in disk.files <==>
        stem in old(disk.files) && !ListsSelected(old(disk.files), stem, file)
    {
      hide Outside, FilesOutside, Without, Cleared, OutsideFile, FilesOutsideFile, IsInFile, ListedFor;
      var first := mem.ComponentsInFile(file);
      InvalidateAll(first);
      var second := disk.ComponentsInFile(file);
      OutsideIsOutsideFile(old(mem.entries), (set c | c in first), (set c | c in second), file);
      if disk.enabled {
        FilesOutsideIsOutsideFile(old(disk.files), (set c | c in first), (set c | c in second), file);
      }
      InvalidateAll(second);
      InvalidateComponent(file);
      OutsideFileIff(old(mem.entries), file);
      FilesOutsideFileIff(old(disk.files), file);
    }

    /** What an event about a file removes: its dependents', and, for a component file, its own. */
    method InvalidateForSource(path: string, nameForFile: Option<string>)
      requires Valid()
      modifies mem, mem.byName, disk, disk.byComponent
      ensures Valid()
      ensures var left := Outside(old(mem.entries), old(index.Dependents(path)));
        mem.entries == if nameForFile.None? then left else OutsideFile(left, nameForFile.value)
      ensures disk.enabled ==>
        var left := FilesOutside(old(disk.files), old(index.Dependents(path)));
        disk.files == if nameForFile.None? then left else FilesOutsideFile(left, nameForFile.value)
    {
      hide Outside, FilesOutside, OutsideFile, FilesOutsideFile;
      var names := index.DependentsOf(path);
      InvalidateAll(names);
      if nameForFile.Some? { InvalidateComponentFile(nameForFile.value); }
    }

    /** Memory first, then disk; a disk hit is promoted, and the index learns nothing of it. */
    method SearchCaches(key: CacheKey, digests: map<string, string>) returns (r: Option<Rendered>)
      requires Valid()
      modifies mem, mem.byName, disk, disk.byComponent
      ensures Valid() && disk.files == old(disk.files)
      ensures key in old(mem.entries) ==> r == Some(old(mem.entries)[key]) && mem.entries == old(mem.entries)
      ensures key !in old(mem.entries) && disk.enabled ==>
        forall stem :: stem in Rescan(disk.files, KeyText(key)) ==> r == ReadSlot(disk.files[stem], digests)
      ensures key !in old(mem.entries) && (!disk.enabled || Rescan(disk.files, KeyText(key)) == {}) ==> r == None
      ensures key !in old(mem.entries) ==>
        mem.entries == if mem.enabled && r.Some? then old(mem.entries)[key := r.value] else old(mem.entries)
      ensures index.bySource.sets == old(index.bySource.sets)
    {
      r := mem.Get(key);
      if r.Some? { return; }
      r := disk.Get(key, digests);
      if r.Some? { mem.Put(key, r.value); }
    }

    /** The rest of a render that missed: record what was read, keep what was built. */
    method Keep(key: CacheKey, artifact: Rendered, sources: seq<string>, digests: map<string, string>)
      requires Valid()
      modifies mem, mem.byName, disk, disk.byComponent, index.bySource
      ensures Valid()
      ensures mem.entries == if mem.enabled then old(mem.entries)[key := artifact] else old(mem.entries)
      ensures disk.files ==
        if disk.enabled
        then Written(old(disk.files), disk.stemOf(key), ManifestOf(key, artifact, Recorded(sources, digests)), artifact)
        else old(disk.files)
      ensures forall s :: s in sources ==> key.component in index.Dependents(s)
    {
      index.Record(key.component, sources);
      mem.Put(key, artifact);
      disk.Put(key, artifact, sources, digests);
    }
  }
}

/**
 What a successful scan of internal/static/manifest.go has found: every file that is
 to be served, each at one place.
 */
module AssetScan {
  import opened Wrappers
  import opened Text
  import opened Sorting
  import opened AssetUrls
  import opened AssetTree

  // ------------------------------------------------------------------------- contents

  lemma {:induction false} AssetsAppend(a: seq<Leaf>, b: seq<Leaf>)
    ensures AssetsOf(a + b) == AssetsOf(a) + AssetsOf(b)
  {
    if a == [] {
      assert a + b == b;
    } else {
      assert (a + b)[1..] == a[1..] + b;
      AssetsAppend(a[1..], b);
    }
  }

  lemma LeavesAre(d: Dir)
    ensures AssetsOf(Leaves(d)) == AssetsOf(DirLeaves(d.dirs)) + AssetsOf(FileLeaves(d.files))
  {
    AssetsAppend(DirLeaves(d.dirs), FileLeaves(d.files));
  }

  lemma DirLeavesCons(dirs: seq<Dir>)
    requires dirs != []
    ensures AssetsOf(DirLeaves(dirs)) == AssetsOf(Leaves(dirs[0])) + AssetsOf(DirLeaves(dirs[1..]))
  {
    UnderAt(dirs[0].name, Leaves(dirs[0]));
    AssetsAppend(Under(dirs[0].name, Leaves(dirs[0])), DirLeaves(dirs[1..]));
  }

  lemma FileLeavesCons(files: seq<Entry>)
    requires files != []
    ensures AssetsOf(FileLeaves(files)) == AssetsOf(EntryLeaves(files[0])) + AssetsOf(FileLeaves(files[1..]))
  {
    AssetsAppend(EntryLeaves(files[0]), FileLeaves(files[1..]));
  }

  // Sorting changes neither what is there nor that it is clear.

  lemma {:induction false} InsertDirKeeps(x: Dir, sorted: seq<Dir>)
    requires AreClearDirs(sorted) && IsClear(x) && x.name !in DirNames(sorted)
    ensures AreClearDirs(Insert(x, sorted, DirName)) && DirNames(Insert(x, sorted, DirName)) == DirNames(sorted) + {x.name}
  {
    hide IsClear;
    var all := Insert(x, sorted, DirName);
    if sorted == [] || !Less(sorted[0].name, x.name) {
      assert all[1..] == sorted;
    } else {
      InsertDirKeeps(x, sorted[1..]);
      assert all[1..] == Insert(x, sorted[1..], DirName);
    }
  }

  lemma {:induction false} InsertDirAssets(x: Dir, sorted: seq<Dir>)
    ensures AssetsOf(DirLeaves(Insert(x, sorted, DirName))) == AssetsOf(Leaves(x)) + AssetsOf(DirLeaves(sorted))
  {
    hide Leaves, DirLeaves, AssetsOf;
    var all := Insert(x, sorted, DirName);
    DirLeavesCons(all);
    if sorted == [] || !Less(sorted[0].name, x.name) {
      assert all[1..] == sorted;
    } else {
      InsertDirAssets(x, sorted[1..]);
      assert all[1..] == Insert(x, sorted[1..], DirName);
      DirLeavesCons(sorted);
    }
  }

  lemma {:induction false} SortDirsKeeps(dirs: seq<Dir>)
    requires AreClearDirs(dirs)
    ensures AreClearDirs(SortBy(dirs, DirName)) && DirNames(SortBy(dirs, DirName)) == DirNames(dirs)
    ensures AssetsOf(DirLeaves(SortBy(dirs, DirName))) == AssetsOf(DirLeaves(dirs))
  {
    hide Leaves, IsClear, DirLeaves, AssetsOf;
    if dirs != [] {
      SortDirsKeeps(dirs[1..]);
      InsertDirKeeps(dirs[0], SortBy(dirs[1..], DirName));
      InsertDirAssets(dirs[0], SortBy(dirs[1..], DirName));
      DirLeavesCons(dirs);
    }
  }

  lemma {:induction false} InsertEntryKeeps(x: Entry, sorted: seq<Entry>)
    requires AreClearEntries(sorted) && IsClearEntry(x) && x.key !in EntryKeys(sorted)
    ensures AreClearEntries(Insert(x, sorted, EntryKey)) && EntryKeys(Insert(x, sorted, EntryKey)) == EntryKeys(sorted) + {x.key}
  {
    hide IsClearEntry;
    var all := Insert(x, sorted, EntryKey);
    if sorted == [] || !Less(sorted[0].key, x.key) {
      assert all[1..] == sorted;
    } else {
      InsertEntryKeeps(x, sorted[1..]);
      assert all[1..] == Insert(x, sorted[1..], EntryKey);
    }
  }

  lemma {:induction false} InsertEntryAssets(x: Entry, sorted: seq<Entry>)
    ensures AssetsOf(FileLeaves(Insert(x, sorted, EntryKey))) == AssetsOf(EntryLeaves(x)) + AssetsOf(FileLeaves(sorted))
  {
    hide EntryLeaves, FileLeaves, AssetsOf;
    var all := Insert(x, sorted, EntryKey);
    FileLeavesCons(all);
    if sorted == [] || !Less(sorted[0].key, x.key) {
      assert all[1..] == sorted;
    } else {
      InsertEntryAssets(x, sorted[1..]);
      assert all[1..] == Insert(x, sorted[1..], EntryKey);
      FileLeavesCons(sorted);
    }
  }

  lemma {:induction false} SortEntriesKeeps(files: seq<Entry>)
    requires AreClearEntries(files)
    ensures AreClearEntries(SortBy(files, EntryKey)) && EntryKeys(SortBy(files, EntryKey)) == EntryKeys(files)
    ensures AssetsOf(FileLeaves(SortBy(files, EntryKey))) == AssetsOf(FileLeaves(files))
  {
    hide EntryLeaves, FileLeaves, IsClearEntry, AssetsOf;
    if files != [] {
      SortEntriesKeeps(files[1..]);
      InsertEntryKeeps(files[0], SortBy(files[1..], EntryKey));
      InsertEntryAssets(files[0], SortBy(files[1..], EntryKey));
      FileLeavesCons(files);
    }
  }

  lemma {:induction false} InsertExtensionKeeps(x: Extension, sorted: seq<Extension>)
    requires AreDistinct(sorted) && x.key !in ExtensionKeys(sorted)
    ensures AreDistinct(Insert(x, sorted, ExtensionName))
    ensures ExtensionKeys(Insert(x, sorted, ExtensionName)) == ExtensionKeys(sorted) + {x.key}
    ensures AssetsOf(ExtensionLeaves(Insert(x, sorted, ExtensionName))) == multiset{x.asset} + AssetsOf(ExtensionLeaves(sorted))
  {
    var all := Insert(x, sorted, ExtensionName);
    if sorted == [] || !Less(sorted[0].key, x.key) {
      assert all[1..] == sorted;
    } else {
      InsertExtensionKeeps(x, sorted[1..]);
      assert all[1..] == Insert(x, sorted[1..], ExtensionName);
    }
  }

  lemma {:induction false} SortExtensionsKeeps(exts: seq<Extension>)
    requires AreDistinct(exts)
    ensures AreDistinct(SortBy(exts, ExtensionName)) && ExtensionKeys(SortBy(exts, ExtensionName)) == ExtensionKeys(exts)
    ensures AssetsOf(ExtensionLeaves(SortBy(exts, ExtensionName))) == AssetsOf(ExtensionLeaves(exts))
  {
    if exts != [] {
      SortExtensionsKeeps(exts[1..]);
      InsertExtensionKeeps(exts[0], SortBy(exts[1..], ExtensionName));
    }
  }

  // ------------------------------------------------------------------ files under keys

  function OwnAssets(own: seq<Owned>): multiset<Asset> {
    if own == [] then multiset{} else multiset{own[0].asset} + OwnAssets(own[1..])
  }

  function GroupAssets(groups: seq<Group>): multiset<Asset> {
    if groups == [] then multiset{} else multiset(groups[0].assets) + GroupAssets(groups[1..])
  }

  lemma {:induction false} AddToKeeps(groups: seq<Group>, owned: Owned)
    ensures GroupAssets(AddTo(groups, owned)) == GroupAssets(groups) + multiset{owned.asset}
  {
    if groups != [] && groups[0].key != owned.key {
      AddToKeeps(groups[1..], owned);
      assert AddTo(groups, owned)[1..] == AddTo(groups[1..], owned);
    }
  }

  lemma {:induction false} GroupedKeeps(own: seq<Owned>, groups: seq<Group>)
    ensures GroupAssets(Grouped(own, groups)) == GroupAssets(groups) + OwnAssets(own)
  {
    if own != [] {
      GroupedKeeps(own[1..], AddTo(groups, own[0]));
      AddToKeeps(groups, own[0]);
    }
  }

  lemma {:induction false} ExtensionsKeep(site: Site, assets: seq<Asset>, taken: set<string>)
    ensures var r := Extensions(site, assets, taken);
      r.Success? ==> AreDistinct(r.value) && ExtensionKeys(r.value) !! taken &&
                     AssetsOf(ExtensionLeaves(r.value)) == multiset(assets)
  {
    hide ExtensionKey;
    var r := Extensions(site, assets, taken);
    if assets != [] && r.Success? {
      var key := ExtensionKey(site, assets[0]);
      var rest := Extensions(site, assets[1..], taken + {key}).value;
      ExtensionsKeep(site, assets[1..], taken + {key});
      assert assets == [assets[0]] + assets[1..];
      assert r.value == [Extension(key, assets[0])] + rest && r.value[1..] == rest;
      hide Extensions, AssetsOf, ExtensionLeaves;
    }
  }

  lemma EntryForKeeps(site: Site, group: Group)
    ensures var r := EntryFor(site, group);
      r.Success? ==> r.value.key == group.key && IsClearEntry(r.value) &&
                     AssetsOf(EntryLeaves(r.value)) == multiset(group.assets)
  {
    if |group.assets| == 1 {
      assert group.assets == [group.assets[0]];
      assert AssetsOf([Leaf([group.key], group.assets[0])]) == multiset{group.assets[0]} + AssetsOf([]);
    } else {
      ExtensionsKeep(site, group.assets, {});
      var r := Extensions(site, group.assets, {});
      if r.Success? {
        SortExtensionsKeeps(r.value);
        UnderAt(group.key, ExtensionLeaves(SortBy(r.value, ExtensionName)));
      }
    }
  }

  lemma {:induction false} EntriesKeep(site: Site, groups: seq<Group>, claimed: set<string>)
    ensures var r := EntriesFor(site, groups, claimed);
      r.Success? ==> AreClearEntries(r.value) && EntryKeys(r.value) !! claimed &&
                     AssetsOf(FileLeaves(r.value)) == GroupAssets(groups)
  {
    hide EntryFor, EntryLeaves, ExtensionKey, IsClearEntry;
    if groups != [] {
      var r := EntriesFor(site, groups, claimed);
      EntryForKeeps(site, groups[0]);
      EntriesKeep(site, groups[1..], claimed + {groups[0].key});
      if r.Success? {
        assert r.value[1..] == EntriesFor(site, groups[1..], claimed + {groups[0].key}).value;
        FileLeavesCons(r.value);
      }
    }
  }

  // ------------------------------------------------------------------------ whole scans

  predicate IsClearWalk(w: Walked) {
    AreClearDirs(w.dirs) && DirNames(w.dirs) == w.claimed
  }

  function WalkAssets(w: Walked): multiset<Asset> {
    AssetsOf(DirLeaves(w.dirs)) + OwnAssets(w.own)
  }

  lemma {:induction false} AppendDirClear(dirs: seq<Dir>, d: Dir)
    requires AreClearDirs(dirs) && IsClear(d) && d.name !in DirNames(dirs)
    ensures AreClearDirs(dirs + [d]) && DirNames(dirs + [d]) == DirNames(dirs) + {d.name}
  {
    hide IsClear;
    if dirs == [] {
      assert dirs + [d] == [d] && [d][1..] == [];
    } else {
      assert (dirs + [d])[1..] == dirs[1..] + [d];
      AppendDirClear(dirs[1..], d);
    }
  }

  lemma {:induction false} AppendDirAssets(dirs: seq<Dir>, d: Dir)
    ensures AssetsOf(DirLeaves(dirs + [d])) == AssetsOf(DirLeaves(dirs)) + AssetsOf(Leaves(d))
  {
    hide Leaves, DirLeaves, AssetsOf;
    DirLeavesCons(dirs + [d]);
    if dirs == [] {
      assert dirs + [d] == [d] && [d][1..] == [];
    } else {
      assert (dirs + [d])[1..] == dirs[1..] + [d];
      AppendDirAssets(dirs[1..], d);
      DirLeavesCons(dirs);
    }
  }

  lemma {:induction false} AppendOwn(own: seq<Owned>, x: Owned)
    ensures OwnAssets(own + [x]) == OwnAssets(own) + multiset{x.asset}
  {
    if own == [] {
      assert own + [x] == [x];
    } else {
      assert (own + [x])[1..] == own[1..] + [x];
      AppendOwn(own[1..], x);
    }
  }

  lemma Renamed(d: Dir, name: string)
    ensures Leaves(d.(name := name)) == Leaves(d) && (IsClear(d.(name := name)) <==> IsClear(d))
  {
  }

  /** Success leaves the walk clear, and richer by just these assets. */
  predicate Adds(acc: Walked, r: Result<Walked, Error>, assets: multiset<Asset>) {
    r.Success? ==> IsClearWalk(r.value) && WalkAssets(r.value) == WalkAssets(acc) + assets
  }

  lemma {:induction false} WalkKeeps(site: Site, entries: seq<Node>, rel: string, acc: Walked, walked: Walked)
    requires IsClearWalk(acc) && Walk(site, entries, rel, acc) == Success(walked)
    ensures Adds(acc, Success(walked), multiset(Servable(site, entries, rel)))
    decreases entries, 0
  {
    if entries != [] {
      hide IsClearWalk, WalkAssets, Visit, ServableNode;
      var next := Visit(site, entries[0], rel, acc);
      VisitKeeps(site, entries[0], rel, acc);
      hide Adds;
      WalkKeeps(site, entries[1..], rel, next.value, walked);
    }
  }

  lemma {:induction false} VisitKeeps(site: Site, node: Node, rel: string, acc: Walked)
    requires IsClearWalk(acc)
    ensures Adds(acc, Visit(site, node, rel, acc), multiset(ServableNode(site, node, rel)))
    decreases node, 2
  {
    hide Leaves, IsClear, AreClearDirs, DirLeaves, Sanitized, Describe, ScanDir, AssetsOf;
    var r := Visit(site, node, rel, acc);
    if IsSkipped(site, node.name) == Some(false) && r.Success? {
      var child := ChildOf(rel, node.name);
      match node
      case File(name, body) =>
        AppendOwn(acc.own, Owned(Sanitized(site.abc, StemOf(name)), Describe(site, child, body.value)));
      case Folder(name, entries) =>
        ScanKeeps(site, entries, child);
        var d := ScanDir(site, entries, child).value;
        var key := Sanitized(site.abc, name);
        Renamed(d, key);
        AppendDirClear(acc.dirs, d.(name := key));
        AppendDirAssets(acc.dirs, d.(name := key));
    }
  }

  /** A scan that succeeds makes a clear tree, of exactly the files to be served. */
  lemma {:induction false} ScanKeeps(site: Site, entries: seq<Node>, rel: string)
    ensures var r := ScanDir(site, entries, rel);
      r.Success? ==> IsClear(r.value) && AssetsOf(Leaves(r.value)) == multiset(Servable(site, entries, rel))
    decreases entries, 1
  {
    hide Walk, AreClearDirs, DirLeaves, EntriesFor;
    var r := ScanDir(site, entries, rel);
    EmptyWalk();
    if r.Success? {
      var walked := Walk(site, entries, rel, Walked([], [], {})).value;
      WalkKeeps(site, entries, rel, Walked([], [], {}), walked);
      var groups := Grouped(walked.own, []);
      var files := EntriesFor(site, groups, walked.claimed).value;
      GroupedKeeps(walked.own, []);
      EntriesKeep(site, groups, walked.claimed);
      SortDirsKeeps(walked.dirs);
      SortEntriesKeeps(files);
      LeavesAre(r.value);
    }
  }

  lemma EmptyWalk()
    ensures IsClearWalk(Walked([], [], {})) && WalkAssets(Walked([], [], {})) == multiset{}
  {
  }

  /**
   When a scan succeeds, no access path is another's or leads through it, and the
   tree's leaves are the servable files, each as often as it is there: once.
   */
  lemma ScanSucceeds(site: Site, entries: seq<Node>, rel: string)
    ensures var r := ScanDir(site, entries, rel);
      r.Success? ==> IsPrefixFree(Leaves(r.value)) &&
                     AssetsOf(Leaves(r.value)) == multiset(Servable(site, entries, rel))
  {
    hide Leaves, ScanDir, IsClear;
    ScanKeeps(site, entries, rel);
    var r := ScanDir(site, entries, rel);
    if r.Success? { ClearIsPrefixFree(r.value); }
  }
}

/**
 internal/static/manifest.go: the scan that turns a directory into a tree of keys,
 and what it means for no two assets to be reached the same way.
 */
module AssetTree {
  import opened Wrappers
  import opened Text
  import opened Sorting
  import opened AssetUrls

  /** A directory as it is read; some files and directories cannot be. */
  datatype Node =
    | File(name: string, body: Option<string>)
    | Folder(name: string, entries: seq<Node>)
    | Sealed(name: string)

  /** The settings of a scan: ignore patterns that can be malformed, and digests cut to eight. */
  datatype Site = Site(
    root: string,
    mount: string,
    abc: Alphabet,
    ignore: string -> Option<bool>,
    digest: string -> string)

  datatype Asset = Asset(rel: string, path: string, url: string)

  datatype Extension = Extension(key: string, asset: Asset)

  datatype Entry = Single(key: string, asset: Asset) | Several(key: string, byExtension: seq<Extension>)

  datatype Dir = Dir(name: string, rel: string, dirs: seq<Dir>, files: seq<Entry>)

  datatype Error = Unreadable(rel: string) | BadPattern(name: string) | Collision(key: string)

  // --------------------------------------------------------------------- the scan

  function ChildOf(rel: string, name: string): string {
    if rel == "" then name else rel + "/" + name
  }

  function Describe(site: Site, rel: string, body: string): Asset {
    Asset(rel, site.root + "/" + rel, UrlOf(site.mount, rel, site.digest(body)))
  }

  function IsSkipped(site: Site, name: string): Option<bool> {
    match site.ignore(name)
    case None => None
    case Some(ignored) => Some(ignored || "." <= name)
  }

  function ExtensionKey(site: Site, asset: Asset): string {
    var ext := Ext(asset.rel);
    var key := Sanitized(site.abc, if "." <= ext then ext[1..] else ext);
    if key == "" then "none" else key
  }

  /** A file of the directory being scanned, under the key it will claim. */
  datatype Owned = Owned(key: string, asset: Asset)

  datatype Group = Group(key: string, assets: seq<Asset>)

  datatype Walked = Walked(dirs: seq<Dir>, own: seq<Owned>, claimed: set<string>)

  function Walk(site: Site, entries: seq<Node>, rel: string, acc: Walked): Result<Walked, Error>
    decreases entries, 0
  {
    if entries == [] then Success(acc)
    else
      match Visit(site, entries[0], rel, acc)
      case Failure(e) => Failure(e)
      case Success(next) => Walk(site, entries[1..], rel, next)
  }

  function Visit(site: Site, node: Node, rel: string, acc: Walked): Result<Walked, Error>
    decreases node, 2
  {
    match IsSkipped(site, node.name)
    case None => Failure(BadPattern(node.name))
    case Some(true) => Success(acc)
    case Some(false) =>
      var child := ChildOf(rel, node.name);
      match node
      case File(name, None) => Failure(Unreadable(child))
      case File(name, Some(body)) =>
        Success(acc.(own := acc.own + [Owned(Sanitized(site.abc, StemOf(name)), Describe(site, child, body))]))
      case Sealed(name) =>
        var key := Sanitized(site.abc, name);
        Failure(if key in acc.claimed then Collision(key) else Unreadable(child))
      case Folder(name, entries) =>
        var key := Sanitized(site.abc, name);
        if key in acc.claimed then Failure(Collision(key))
        else
          match ScanDir(site, entries, child)
          case Failure(e) => Failure(e)
          case Success(d) => Success(acc.(dirs := acc.dirs + [d.(name := key)], claimed := acc.claimed + {key}))
  }

  function ScanDir(site: Site, entries: seq<Node>, rel: string): Result<Dir, Error>
    decreases entries, 1
  {
    match Walk(site, entries, rel, Walked([], [], {}))
    case Failure(e) => Failure(e)
    case Success(walked) =>
      match EntriesFor(site, Grouped(walked.own, []), walked.claimed)
      case Failure(e) => Failure(e)
      case Success(files) => Success(Dir("", rel, SortBy(walked.dirs, DirName), SortBy(files, EntryKey)))
  }

  function AddTo(groups: seq<Group>, owned: Owned): seq<Group> {
    if groups == [] then [Group(owned.key, [owned.asset])]
    else if groups[0].key == owned.key then [Group(owned.key, groups[0].assets + [owned.asset])] + groups[1..]
    else [groups[0]] + AddTo(groups[1..], owned)
  }

  /** Assets by key, keys in the order they were first met. */
  function Grouped(own: seq<Owned>, groups: seq<Group>): seq<Group> {
    if own == [] then groups else Grouped(own[1..], AddTo(groups, own[0]))
  }

  function EntriesFor(site: Site, groups: seq<Group>, claimed: set<string>): Result<seq<Entry>, Error> {
    if groups == [] then Success([])
    else if groups[0].key in claimed then Failure(Collision(groups[0].key))
    else
      match EntryFor(site, groups[0])
      case Failure(e) => Failure(e)
      case Success(entry) =>
        match EntriesFor(site, groups[1..], claimed + {groups[0].key})
        case Failure(e) => Failure(e)
        case Success(rest) => Success([entry] + rest)
  }

  function EntryFor(site: Site, group: Group): Result<Entry, Error> {
    if |group.assets| == 1 then Success(Single(group.key, group.assets[0]))
    else
      match Extensions(site, group.assets, {})
      case Failure(e) => Failure(e)
      case Success(byExtension) => Success(Several(group.key, SortBy(byExtension, ExtensionName)))
  }

  function Extensions(site: Site, assets: seq<Asset>, taken: set<string>): Result<seq<Extension>, Error> {
    if assets == [] then Success([])
    else
      var key := ExtensionKey(site, assets[0]);
      if key in taken then Failure(Collision(key))
      else
        match Extensions(site, assets[1..], taken + {key})
        case Failure(e) => Failure(e)
        case Success(rest) => Success([Extension(key, assets[0])] + rest)
  }

  function DirName(d: Dir): string { d.name }

  function EntryKey(e: Entry): string { e.key }

  function ExtensionName(x: Extension): string { x.key }

  // ------------------------------------------------------------ what a scan should find

  /** Every file that is not skipped, with no regard to keys, in the order of reading. */
  function Servable(site: Site, entries: seq<Node>, rel: string): seq<Asset>
    decreases entries, 0
  {
    if entries == [] then []
    else ServableNode(site, entries[0], rel) + Servable(site, entries[1..], rel)
  }

  function ServableNode(site: Site, node: Node, rel: string): seq<Asset>
    decreases node, 1
  {
    if IsSkipped(site, node.name) != Some(false) then []
    else
      match node
      case File(name, Some(body)) => [Describe(site, ChildOf(rel, name), body)]
      case Folder(name, entries) => Servable(site, entries, ChildOf(rel, name))
      case _ => []
  }

  /** An asset at the end of its access path. */
  datatype Leaf = Leaf(path: seq<string>, asset: Asset)

  function Under(key: string, leaves: seq<Leaf>): seq<Leaf> {
    if leaves == [] then [] else [Leaf([key] + leaves[0].path, leaves[0].asset)] + Under(key, leaves[1..])
  }

  function ExtensionLeaves(exts: seq<Extension>): seq<Leaf> {
    if exts == [] then [] else [Leaf([exts[0].key], exts[0].asset)] + ExtensionLeaves(exts[1..])
  }

  function EntryLeaves(e: Entry): seq<Leaf> {
    match e
    case Single(key, asset) => [Leaf([key], asset)]
    case Several(key, byExtension) => Under(key, ExtensionLeaves(byExtension))
  }

  function FileLeaves(files: seq<Entry>): seq<Leaf> {
    if files == [] then [] else EntryLeaves(files[0]) + FileLeaves(files[1..])
  }

  function DirLeaves(dirs: seq<Dir>): seq<Leaf>
    decreases dirs, 0
  {
    if dirs == [] then [] else Under(dirs[0].name, Leaves(dirs[0])) + DirLeaves(dirs[1..])
  }

  /** The assets of a tree, each with the keys that lead to it. */
  function Leaves(d: Dir): seq<Leaf>
    decreases d, 1
  {
    DirLeaves(d.dirs) + FileLeaves(d.files)
  }

  function AssetsOf(leaves: seq<Leaf>): multiset<Asset> {
    if leaves == [] then multiset{} else multiset{leaves[0].asset} + AssetsOf(leaves[1..])
  }

  predicate IsPrefixFree(leaves: seq<Leaf>) {
    forall i, j :: 0 <= i < j < |leaves| ==>
      !(leaves[i].path <= leaves[j].path) && !(leaves[j].path <= leaves[i].path)
  }

  // --------------------------------------------------------------- trees without clashes

  function DirNames(dirs: seq<Dir>): set<string> {
    if dirs == [] then {} else {dirs[0].name} + DirNames(dirs[1..])
  }

  function EntryKeys(files: seq<Entry>): set<string> {
    if files == [] then {} else {files[0].key} + EntryKeys(files[1..])
  }

  function ExtensionKeys(exts: seq<Extension>): set<string> {
    if exts == [] then {} else {exts[0].key} + ExtensionKeys(exts[1..])
  }

  predicate AreDistinct(exts: seq<Extension>) {
    exts == [] || (exts[0].key !in ExtensionKeys(exts[1..]) && AreDistinct(exts[1..]))
  }

  predicate IsClearEntry(e: Entry) {
    e.Several? ==> AreDistinct(e.byExtension)
  }

  predicate AreClearEntries(files: seq<Entry>) {
    files == [] ||
    (files[0].key !in EntryKeys(files[1..]) && IsClearEntry(files[0]) && AreClearEntries(files[1..]))
  }

  predicate AreClearDirs(dirs: seq<Dir>)
    decreases dirs, 0
  {
    dirs == [] || (dirs[0].name !in DirNames(dirs[1..]) && IsClear(dirs[0]) && AreClearDirs(dirs[1..]))
  }

  /** No key is claimed twice in one directory, here or below. */
  predicate IsClear(d: Dir)
    decreases d, 1
  {
    AreClearDirs(d.dirs) && AreClearEntries(d.files) && DirNames(d.dirs) !! EntryKeys(d.files)
  }

  predicate HaveHeads(leaves: seq<Leaf>, keys: set<string>) {
    forall i :: 0 <= i < |leaves| ==> leaves[i].path != [] && leaves[i].path[0] in keys
  }

  lemma JoinIsPrefixFree(a: seq<Leaf>, b: seq<Leaf>, aKeys: set<string>, bKeys: set<string>)
    requires IsPrefixFree(a) && IsPrefixFree(b) && HaveHeads(a, aKeys) && HaveHeads(b, bKeys) && aKeys !! bKeys
    ensures IsPrefixFree(a + b) && HaveHeads(a + b, aKeys + bKeys)
  {
    var all := a + b;
    forall i, j | 0 <= i < j < |all|
      ensures !(all[i].path <= all[j].path) && !(all[j].path <= all[i].path)
    {
      if i < |a| <= j {
        assert all[i] == a[i] && all[j] == b[j - |a|];
        assert all[i].path[0] != all[j].path[0];
      } else if j < |a| {
        assert all[i] == a[i] && all[j] == a[j];
      } else {
        assert all[i] == b[i - |a|] && all[j] == b[j - |a|];
      }
    }
  }

  lemma {:induction false} UnderAt(key: string, leaves: seq<Leaf>)
    ensures |Under(key, leaves)| == |leaves|
    ensures forall i :: 0 <= i < |leaves| ==> Under(key, leaves)[i] == Leaf([key] + leaves[i].path, leaves[i].asset)
    ensures AssetsOf(Under(key, leaves)) == AssetsOf(leaves)
  {
    if leaves != [] {
      UnderAt(key, leaves[1..]);
      assert Under(key, leaves)[1..] == Under(key, leaves[1..]);
    }
  }

  lemma PrefixBelow(key: string, a: seq<string>, b: seq<string>)
    requires [key] + a <= [key] + b
    ensures a <= b
  {
    assert ([key] + a)[1..] == a && ([key] + b)[1..] == b;
    assert ([key] + b)[..|a| + 1] == [key] + a;
    assert b[..|a|] == ([key] + b)[1..][..|a|] == ([key] + b)[..|a| + 1][1..];
  }

  lemma UnderIsPrefixFree(key: string, leaves: seq<Leaf>)
    requires IsPrefixFree(leaves)
    ensures IsPrefixFree(Under(key, leaves)) && HaveHeads(Under(key, leaves), {key})
  {
    UnderAt(key, leaves);
    hide Under;
    var all := Under(key, leaves);
    forall i, j | 0 <= i < j < |all|
      ensures !(all[i].path <= all[j].path) && !(all[j].path <= all[i].path)
    {
      var a, b := leaves[i].path, leaves[j].path;
      if [key] + a <= [key] + b { PrefixBelow(key, a, b); }
      if [key] + b <= [key] + a { PrefixBelow(key, b, a); }
    }
  }

  lemma {:induction false} ExtensionsArePrefixFree(exts: seq<Extension>)
    requires AreDistinct(exts)
    ensures IsPrefixFree(ExtensionLeaves(exts)) && HaveHeads(ExtensionLeaves(exts), ExtensionKeys(exts))
  {
    if exts != [] {
      ExtensionsArePrefixFree(exts[1..]);
      JoinIsPrefixFree([Leaf([exts[0].key], exts[0].asset)], ExtensionLeaves(exts[1..]),
                       {exts[0].key}, ExtensionKeys(exts[1..]));
    }
  }

  lemma {:induction false} FilesArePrefixFree(files: seq<Entry>)
    requires AreClearEntries(files)
    ensures IsPrefixFree(FileLeaves(files)) && HaveHeads(FileLeaves(files), EntryKeys(files))
  {
    if files != [] {
      if files[0].Several? {
        ExtensionsArePrefixFree(files[0].byExtension);
        UnderIsPrefixFree(files[0].key, ExtensionLeaves(files[0].byExtension));
      }
      FilesArePrefixFree(files[1..]);
      JoinIsPrefixFree(EntryLeaves(files[0]), FileLeaves(files[1..]), {files[0].key}, EntryKeys(files[1..]));
    }
  }

  lemma {:induction false} DirsArePrefixFree(dirs: seq<Dir>)
    requires AreClearDirs(dirs)
    ensures IsPrefixFree(DirLeaves(dirs)) && HaveHeads(DirLeaves(dirs), DirNames(dirs))
    decreases dirs, 0
  {
    if dirs != [] {
      ClearIsPrefixFree(dirs[0]);
      UnderIsPrefixFree(dirs[0].name, Leaves(dirs[0]));
      DirsArePrefixFree(dirs[1..]);
      JoinIsPrefixFree(Under(dirs[0].name, Leaves(dirs[0])), DirLeaves(dirs[1..]), {dirs[0].name}, DirNames(dirs[1..]));
    }
  }

  lemma {:induction false} ClearIsPrefixFree(d: Dir)
    requires IsClear(d)
    ensures IsPrefixFree(Leaves(d))
    decreases d, 1
  {
    DirsArePrefixFree(d.dirs);
    FilesArePrefixFree(d.files);
    JoinIsPrefixFree(DirLeaves(d.dirs), FileLeaves(d.files), DirNames(d.dirs), EntryKeys(d.files));
  }
}

/**
 internal/static/manifest.go: the manifest as the scan fills it, and finding an
 asset in it by the path of a request.
 */
module ManifestIndex {
  import opened Wrappers
  import opened Text
  import opened Sorting
  import opened AssetUrls
  import opened AssetTree

  // ------------------------------------------------------- no two assets of one path

  predicate IsName(name: string) {
    name != "" && forall i :: 0 <= i < |name| ==> name[i] != '/'
  }

  function NamesOf(entries: seq<Node>): set<string> {
    if entries == [] then {} else {entries[0].name} + NamesOf(entries[1..])
  }

  /** What a file system gives: sibling names differ, and hold no slash. */
  predicate AreWellNamed(entries: seq<Node>)
    decreases entries, 0
  {
    entries == [] ||
    (IsWellNamed(entries[0]) && entries[0].name !in NamesOf(entries[1..]) && AreWellNamed(entries[1..]))
  }

  predicate IsWellNamed(node: Node)
    decreases node, 1
  {
    IsName(node.name) && (node.Folder? ==> AreWellNamed(node.entries))
  }

  /** The path itself, or something below it. */
  predicate IsAtOrBelow(rel: string, base: string) {
    base <= rel && (|rel| == |base| || rel[|base|] == '/')
  }

  lemma BelowOne(rel: string, dir: string, a: string, b: string)
    requires IsName(a) && IsName(b)
    requires IsAtOrBelow(rel, ChildOf(dir, a)) && IsAtOrBelow(rel, ChildOf(dir, b))
    ensures a == b
  {
    var p := if dir == "" then "" else dir + "/";
    assert ChildOf(dir, a) == p + a && ChildOf(dir, b) == p + b;
    assert forall i :: 0 <= i < |a| ==> rel[|p| + i] == a[i];
    assert forall i :: 0 <= i < |b| ==> rel[|p| + i] == b[i];
    assert |a| == |b|;
  }

  lemma {:induction false} ServableBelow(site: Site, entries: seq<Node>, rel: string, i: nat)
    requires AreWellNamed(entries) && i < |Servable(site, entries, rel)|
    ensures exists name :: name in NamesOf(entries) && IsName(name) && IsAtOrBelow(Servable(site, entries, rel)[i].rel,
                                                                                   ChildOf(rel, name))
    decreases entries, 0
  {
    var first := ServableNode(site, entries[0], rel);
    if i < |first| {
      ServableNodeBelow(site, entries[0], rel, i);
    } else {
      ServableBelow(site, entries[1..], rel, i - |first|);
    }
  }

  lemma {:induction false} ServableNodeBelow(site: Site, node: Node, rel: string, i: nat)
    requires IsWellNamed(node) && i < |ServableNode(site, node, rel)|
    ensures IsAtOrBelow(ServableNode(site, node, rel)[i].rel, ChildOf(rel, node.name))
    decreases node, 1
  {
    if node.Folder? {
      var child := ChildOf(rel, node.name);
      ServableBelow(site, node.entries, child, i);
      var name :| name in NamesOf(node.entries) && IsName(name) &&
        IsAtOrBelow(Servable(site, node.entries, child)[i].rel, ChildOf(child, name));
      assert ChildOf(child, name)[|child|] == '/';
    }
  }

  predicate HaveOwnRels(assets: seq<Asset>) {
    forall i, j :: 0 <= i < j < |assets| ==> assets[i].rel != assets[j].rel
  }

  lemma {:induction false} ServableDiffer(site: Site, entries: seq<Node>, rel: string)
    requires AreWellNamed(entries)
    ensures HaveOwnRels(Servable(site, entries, rel))
    decreases entries, 0
  {
    if entries != [] {
      var first, rest := ServableNode(site, entries[0], rel), Servable(site, entries[1..], rel);
      var all := first + rest;
      ServableNodeDiffer(site, entries[0], rel);
      ServableDiffer(site, entries[1..], rel);
      forall i, j | 0 <= i < |first| && 0 <= j < |rest| ensures first[i].rel != rest[j].rel {
        ServableNodeBelow(site, entries[0], rel, i);
        ServableBelow(site, entries[1..], rel, j);
        var name :| name in NamesOf(entries[1..]) && IsName(name) && IsAtOrBelow(rest[j].rel, ChildOf(rel, name));
        if first[i].rel == rest[j].rel { BelowOne(first[i].rel, rel, entries[0].name, name); }
      }
    }
  }

  lemma {:induction false} ServableNodeDiffer(site: Site, node: Node, rel: string)
    requires IsWellNamed(node)
    ensures HaveOwnRels(ServableNode(site, node, rel))
    decreases node, 1
  {
    if node.Folder? { ServableDiffer(site, node.entries, ChildOf(rel, node.name)); }
  }

  // --------------------------------------------------------------------- the indices

  /** What a scan fills besides the tree. */
  datatype Index = Index(byUrl: map<string, Asset>, byRel: map<string, Asset>, sources: seq<string>)

  function Url(a: Asset): string { a.url }

  function Rel(a: Asset): string { a.rel }

  function PutAll(m: map<string, Asset>, assets: seq<Asset>, key: Asset -> string): map<string, Asset>
    decreases |assets|
  {
    if assets == [] then m else PutAll(m[key(assets[0]) := assets[0]], assets[1..], key)
  }

  function PathsOf(assets: seq<Asset>): seq<string> {
    if assets == [] then [] else [assets[0].path] + PathsOf(assets[1..])
  }

  function AddAll(index: Index, assets: seq<Asset>): Index {
    Index(PutAll(index.byUrl, assets, Url), PutAll(index.byRel, assets, Rel), index.sources + PathsOf(assets))
  }

  lemma {:induction false} PutAllAppend(m: map<string, Asset>, a: seq<Asset>, b: seq<Asset>, key: Asset -> string)
    ensures PutAll(m, a + b, key) == PutAll(PutAll(m, a, key), b, key)
    decreases |a|
  {
    if a == [] {
      assert a + b == b;
    } else {
      assert (a + b)[1..] == a[1..] + b;
      PutAllAppend(m[key(a[0]) := a[0]], a[1..], b, key);
    }
  }

  lemma {:induction false} PathsAppend(a: seq<Asset>, b: seq<Asset>)
    ensures PathsOf(a + b) == PathsOf(a) + PathsOf(b)
  {
    if a == [] {
      assert a + b == b;
    } else {
      assert (a + b)[1..] == a[1..] + b;
      PathsAppend(a[1..], b);
    }
  }

  lemma AddAllAppend(index: Index, a: seq<Asset>, b: seq<Asset>)
    ensures AddAll(index, a + b) == AddAll(AddAll(index, a), b)
  {
    hide PutAll, PathsOf;
    PutAllAppend(index.byUrl, a, b, Url);
    PutAllAppend(index.byRel, a, b, Rel);
    PathsAppend(a, b);
    assert index.sources + (PathsOf(a) + PathsOf(b)) == index.sources + PathsOf(a) + PathsOf(b);
  }

  /** Assets with keys of their own are all kept, and nothing else comes in. */
  lemma {:induction false} PutAllAt(m: map<string, Asset>, assets: seq<Asset>, key: Asset -> string, x: string)
    requires forall i, j :: 0 <= i < j < |assets| ==> key(assets[i]) != key(assets[j])
    ensures var all := PutAll(m, assets, key);
      && (forall i :: 0 <= i < |assets| && key(assets[i]) == x ==> x in all && all[x] == assets[i])
      && ((forall i :: 0 <= i < |assets| ==> key(assets[i]) != x) ==>
            (x in all <==> x in m) && (x in m ==> all[x] == m[x]))
    decreases |assets|
  {
    if assets != [] {
      var rest := assets[1..];
      assert forall i :: 0 <= i < |rest| ==> rest[i] == assets[i + 1];
      assert forall i :: 0 < i < |assets| ==> assets[i] == rest[i - 1];
      PutAllAt(m[key(assets[0]) := assets[0]], rest, key, x);
    }
  }

  predicate HaveOwnUrls(assets: seq<Asset>) {
    forall i, j :: 0 <= i < j < |assets| ==> assets[i].url != assets[j].url
  }

  /** Digests are eight hexadecimal digits. */
  ghost predicate HasDigests(site: Site) {
    forall body :: |site.digest(body)| == 8 && IsPart(site.digest(body))
  }

  /** As `describe` made it, from some contents. */
  ghost predicate IsDescribed(site: Site, a: Asset) {
    exists body :: a == Describe(site, a.rel, body)
  }

  lemma {:induction false} ServableAreDescribed(site: Site, entries: seq<Node>, rel: string, i: nat)
    requires i < |Servable(site, entries, rel)|
    ensures IsDescribed(site, Servable(site, entries, rel)[i])
    decreases entries, 0
  {
    hide IsDescribed;
    var first := ServableNode(site, entries[0], rel);
    if i >= |first| {
      ServableAreDescribed(site, entries[1..], rel, i - |first|);
    } else {
      ServableNodeIsDescribed(site, entries[0], rel, i);
    }
  }

  lemma {:induction false} ServableNodeIsDescribed(site: Site, node: Node, rel: string, i: nat)
    requires i < |ServableNode(site, node, rel)|
    ensures IsDescribed(site, ServableNode(site, node, rel)[i])
    decreases node, 1
  {
    if node.Folder? {
      ServableAreDescribed(site, node.entries, ChildOf(rel, node.name), i);
    } else {
      assert ServableNode(site, node, rel)[i] == Describe(site, ChildOf(rel, node.name), node.body.value);
    }
  }

  lemma DescribedUrlsDiffer(site: Site, a: Asset, b: Asset)
    requires HasDigests(site) && IsDescribed(site, a) && IsDescribed(site, b) && a.rel != b.rel
    ensures a.url != b.url
  {
    var x :| a == Describe(site, a.rel, x);
    var y :| b == Describe(site, b.rel, y);
    UrlInjective(site.mount, a.rel, b.rel, site.digest(x), site.digest(y));
  }

  /** Different files have different URLs, whatever is in them. */
  lemma ServableUrlsDiffer(site: Site, entries: seq<Node>, rel: string)
    requires AreWellNamed(entries) && HasDigests(site)
    ensures HaveOwnUrls(Servable(site, entries, rel))
  {
    var assets := Servable(site, entries, rel);
    ServableDiffer(site, entries, rel);
    forall i, j | 0 <= i < j < |assets| ensures assets[i].url != assets[j].url {
      ServableAreDescribed(site, entries, rel, i);
      ServableAreDescribed(site, entries, rel, j);
      DescribedUrlsDiffer(site, assets[i], assets[j]);
    }
  }

  function Empty(): Index {
    Index(map[], map[], [])
  }

  /** Neither index loses a file, and neither holds anything else. */
  lemma IndexesHoldAll(site: Site, entries: seq<Node>, x: string)
    requires AreWellNamed(entries) && HasDigests(site)
    ensures var assets := Servable(site, entries, "");
      var index := AddAll(Empty(), assets);
      && (forall i :: 0 <= i < |assets| && assets[i].url == x ==> x in index.byUrl && index.byUrl[x] == assets[i])
      && (forall i :: 0 <= i < |assets| && assets[i].rel == x ==> x in index.byRel && index.byRel[x] == assets[i])
      && (x in index.byUrl ==> index.byUrl[x] in assets && index.byUrl[x].url == x)
      && (x in index.byRel ==> index.byRel[x] in assets && index.byRel[x].rel == x)
      && index.sources == PathsOf(assets)
  {
    hide Servable, PathsOf, AreWellNamed, PutAll, HasDigests;
    var assets := Servable(site, entries, "");
    ServableDiffer(site, entries, "");
    ServableUrlsDiffer(site, entries, "");
    var byUrl, byRel := Url, Rel;
    forall i, j | 0 <= i < j < |assets|
      ensures byUrl(assets[i]) != byUrl(assets[j]) && byRel(assets[i]) != byRel(assets[j])
    {
      assert assets[i].url != assets[j].url && assets[i].rel != assets[j].rel;
    }
    PutAllIn(assets, byUrl, x);
    PutAllIn(assets, byRel, x);
    assert [] + PathsOf(assets) == PathsOf(assets);
  }

  lemma PutAllIn(assets: seq<Asset>, key: Asset -> string, x: string)
    requires forall i, j :: 0 <= i < j < |assets| ==> key(assets[i]) != key(assets[j])
    ensures var all := PutAll(map[], assets, key);
      && (forall i :: 0 <= i < |assets| && key(assets[i]) == x ==> x in all && all[x] == assets[i])
      && (x in all ==> all[x] in assets && key(all[x]) == x)
  {
    PutAllAt(map[], assets, key, x);
    assert forall i :: 0 <= i < |assets| ==> assets[i] in assets;
  }

  // ---------------------------------------------------------------------- the manifest

  function Itself(path: string): string {
    path
  }

  lemma {:induction false} ServableSnoc(site: Site, entries: seq<Node>, rel: string, i: nat)
    requires i < |entries|
    ensures Servable(site, entries[..i + 1], rel) == Servable(site, entries[..i], rel) + ServableNode(site, entries[i], rel)
    decreases i
  {
    if i == 0 {
      assert entries[..1] == [entries[0]] && entries[..1][1..] == [] && entries[..0] == [];
    } else {
      assert entries[..i + 1][1..] == entries[1..][..i] && entries[..i][1..] == entries[1..][..i - 1];
      ServableSnoc(site, entries[1..], rel, i - 1);
    }
  }

  lemma AddOne(index: Index, a: Asset)
    ensures AddAll(index, [a]) == Index(index.byUrl[a.url := a], index.byRel[a.rel := a], index.sources + [a.path])
  {
    assert [a][1..] == [] && Url(a) == a.url && Rel(a) == a.rel;
    assert PutAll(index.byUrl, [a], Url) == PutAll(index.byUrl[Url(a) := a], [], Url);
    assert PutAll(index.byRel, [a], Rel) == PutAll(index.byRel[Rel(a) := a], [], Rel);
    assert PathsOf([a]) == [a.path];
  }

  class Manifest {
    const site: Site
    var byUrl: map<string, Asset>
    var byRel: map<string, Asset>
    var sources: seq<string>
    var tree: Option<Dir>

    function View(): Index
      reads this
    {
      Index(byUrl, byRel, sources)
    }

    constructor (s: Site)
      ensures site == s && View() == Empty() && tree == None
    {
      site, byUrl, byRel, sources, tree := s, map[], map[], [], None;
    }

    method Add(a: Asset)
      modifies this
      ensures View() == AddAll(old(View()), [a]) && tree == old(tree)
    {
      AddOne(View(), a);
      hide AddAll;
      byUrl := byUrl[a.url := a];
      byRel := byRel[a.rel := a];
      sources := sources + [a.path];
    }

    /** The walk over one directory; what it adds to the manifest is the files below it. */
    method Scan(entries: seq<Node>, rel: string) returns (r: Result<Dir, Error>)
      modifies this
      ensures r == ScanDir(site, entries, rel) && tree == old(tree)
      ensures r.Success? ==> View() == AddAll(old(View()), Servable(site, entries, rel))
      decreases entries, 1
    {
      hide AddAll, Visit, ServableNode;
      var walked := Walked([], [], {});
      assert entries[0..] == entries && entries[..0] == [];
      AddNone(View());
      for i := 0 to |entries|
        invariant tree == old(tree)
        invariant Walk(site, entries[i..], rel, walked) == Walk(site, entries, rel, Walked([], [], {}))
        invariant View() == AddAll(old(View()), Servable(site, entries[..i], rel))
      {
        assert entries[i..][1..] == entries[i + 1..];
        ServableSnoc(site, entries, rel, i);
        AddAllAppend(old(View()), Servable(site, entries[..i], rel), ServableNode(site, entries[i], rel));
        var next := ScanNode(entries[i], rel, walked);
        if next.Failure? { return Failure(next.error); }
        walked := next.value;
      }
      assert entries[..|entries|] == entries && entries[|entries|..] == [];
      var files := EntriesFor(site, Grouped(walked.own, []), walked.claimed);
      if files.Failure? { return Failure(files.error); }
      return Success(Dir("", rel, SortBy(walked.dirs, DirName), SortBy(files.value, EntryKey)));
    }

    /** The body of the loop. */
    method ScanNode(node: Node, rel: string, walked: Walked) returns (r: Result<Walked, Error>)
      modifies this
      ensures r == Visit(site, node, rel, walked) && tree == old(tree)
      ensures r.Success? ==> View() == AddAll(old(View()), ServableNode(site, node, rel))
      decreases node, 2
    {
      hide AddAll, ScanDir, Sanitized, Servable;
      AddNone(View());
      var skipped := IsSkipped(site, node.name);
      if skipped.None? { return Failure(BadPattern(node.name)); }
      if skipped.value { return Success(walked); }
      var child := ChildOf(rel, node.name);
      if node.File? {
        if node.body.None? { return Failure(Unreadable(child)); }
        var asset := Describe(site, child, node.body.value);
        Add(asset);
        return Success(walked.(own := walked.own + [Owned(Sanitized(site.abc, StemOf(node.name)), asset)]));
      }
      var key := Sanitized(site.abc, node.name);
      if key in walked.claimed { return Failure(Collision(key)); }
      if node.Sealed? { return Failure(Unreadable(child)); }
      var d := Scan(node.entries, child);
      if d.Failure? { return Failure(d.error); }
      return Success(walked.(dirs := walked.dirs + [d.value.(name := key)], claimed := walked.claimed + {key}));
    }

    method Build(entries: seq<Node>) returns (ok: bool)
      modifies this
      requires View() == Empty()
      ensures ok == ScanDir(site, entries, "").Success?
      ensures ok ==> tree == Some(ScanDir(site, entries, "").value)
      ensures ok ==> var index := AddAll(Empty(), Servable(site, entries, ""));
        byUrl == index.byUrl && byRel == index.byRel && multiset(sources) == multiset(index.sources) && AreSorted(sources, Itself)
    {
      var r := Scan(entries, "");
      if r.Failure? { return false; }
      tree := Some(r.value);
      SortSorts(sources, Itself);
      sources := SortBy(sources, Itself);
      return true;
    }

    /** Both lookups are exact: the manifest stays the closed set. */
    method Resolve(path: string) returns (r: Option<Asset>)
      ensures r == Resolved(byUrl, site.mount, path)
    {
      if path in byUrl { return Some(byUrl[path]); }
      if site.mount <= path { return None; }
      var below := site.mount + TrimSlash(path);
      if below in byUrl { return Some(byUrl[below]); }
      return None;
    }
  }

  lemma AddNone(index: Index)
    ensures AddAll(index, []) == index
  {
    assert index.sources + [] == index.sources;
  }

  // ------------------------------------------------------------------------ resolving

  function Resolved(byUrl: map<string, Asset>, mount: string, path: string): Option<Asset> {
    if path in byUrl then Some(byUrl[path])
    else if mount <= path then None
    else if mount + TrimSlash(path) in byUrl then Some(byUrl[mount + TrimSlash(path)])
    else None
  }

  predicate Names(byUrl: map<string, Asset>, url: string, a: Asset) {
    url in byUrl && byUrl[url] == a
  }

  /** What every entry's URL begins with. */
  predicate AllBelow(byUrl: map<string, Asset>, mount: string) {
    forall u :: u in byUrl ==> mount <= u
  }

  /** A path names an asset by its URL, or by what is below the mount, and in no other way. */
  lemma ResolvedIff(byUrl: map<string, Asset>, mount: string, path: string, a: Asset)
    requires AllBelow(byUrl, mount)
    ensures Resolved(byUrl, mount, path) == Some(a) <==>
      if mount <= path then Names(byUrl, path, a) else Names(byUrl, mount + TrimSlash(path), a)
  {
  }

  /** An asset is found by its URL, and by its URL without the mount, with or without a slash in front. */
  lemma AssetResolves(byUrl: map<string, Asset>, mount: string, below: string, a: Asset)
    requires AllBelow(byUrl, mount) && Names(byUrl, mount + below, a)
    ensures Resolved(byUrl, mount, mount + below) == Some(a)
    ensures !("/" <= below) && !(mount <= below) ==> Resolved(byUrl, mount, below) == Some(a)
    ensures !(mount <= "/" + below) ==> Resolved(byUrl, mount, "/" + below) == Some(a)
  {
    assert ("/" + below)[1..] == below;
  }

  lemma BuiltIsBelowMount(site: Site, entries: seq<Node>)
    requires AreWellNamed(entries) && HasDigests(site)
    ensures AllBelow(AddAll(Empty(), Servable(site, entries, "")).byUrl, site.mount)
  {
    hide AddAll, Servable, AreWellNamed;
    var assets := Servable(site, entries, "");
    var byUrl := AddAll(Empty(), assets).byUrl;
    forall u | u in byUrl ensures site.mount <= u {
      IndexesHoldAll(site, entries, u);
      var i :| 0 <= i < |assets| && assets[i] == byUrl[u];
      ServableAreDescribed(site, entries, "", i);
    }
  }

  predicate IsRelative(rel: string) {
    rel != "" && rel[0] != '/'
  }

  lemma ServableIsRelative(site: Site, entries: seq<Node>, i: nat)
    requires AreWellNamed(entries) && i < |Servable(site, entries, "")|
    ensures IsRelative(Servable(site, entries, "")[i].rel)
  {
    ServableBelow(site, entries, "", i);
  }

  lemma NoSlashFirst(rel: string, digest: string)
    requires IsRelative(rel)
    ensures !("/" <= Hashed(rel, digest))
  {
    assert StemOf(rel) != "" ==> Hashed(rel, digest)[0] == rel[0];
    assert StemOf(rel) == "" ==> Hashed(rel, digest)[0] == '.';
  }

  /** Every file a scan finds is found again: by its URL, and by what is below the mount. */
  lemma AssetIsFound(site: Site, entries: seq<Node>, i: nat) returns (below: string)
    requires AreWellNamed(entries) && HasDigests(site) && i < |Servable(site, entries, "")|
    ensures var a := Servable(site, entries, "")[i];
      var byUrl := AddAll(Empty(), Servable(site, entries, "")).byUrl;
      && a.url == site.mount + below && Resolved(byUrl, site.mount, a.url) == Some(a)
      && (!(site.mount <= below) ==> Resolved(byUrl, site.mount, below) == Some(a))
      && (!(site.mount <= "/" + below) ==> Resolved(byUrl, site.mount, "/" + below) == Some(a))
  {
    hide AddAll, Servable, AreWellNamed, Resolved, Hashed;
    var a := Servable(site, entries, "")[i];
    ServableAreDescribed(site, entries, "", i);
    ServableIsRelative(site, entries, i);
    var body :| a == Describe(site, a.rel, body);
    below := Hashed(a.rel, site.digest(body));
    NoSlashFirst(a.rel, site.digest(body));
    BuiltIsBelowMount(site, entries);
    IndexesHoldAll(site, entries, a.url);
    AssetResolves(AddAll(Empty(), Servable(site, entries, "")).byUrl, site.mount, below, a);
  }
}

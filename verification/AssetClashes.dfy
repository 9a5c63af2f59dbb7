/**
 Exactly when a scan of internal/static/manifest.go succeeds: everything that is not
 skipped can be read, and no two of a directory's entries claim one key.
 */
module AssetClashes {
  import opened Wrappers
  import opened AssetUrls
  import opened AssetTree
  import opened AssetScan

  /** The keys a directory's folders claim. */
  function FolderKeys(site: Site, entries: seq<Node>): seq<string> {
    if entries == [] then [] else OwnKey(site, entries[0]) + FolderKeys(site, entries[1..])
  }

  /** The key a folder claims; no other entry claims one. */
  function OwnKey(site: Site, node: Node): seq<string> {
    if IsSkipped(site, node.name) == Some(false) && node.Folder? then [Sanitized(site.abc, node.name)] else []
  }

  /** Its files, each under the key of its name without the extension. */
  function OwnFiles(site: Site, entries: seq<Node>, rel: string): seq<Owned> {
    if entries == [] then [] else OwnFile(site, entries[0], rel) + OwnFiles(site, entries[1..], rel)
  }

  function OwnFile(site: Site, node: Node, rel: string): seq<Owned> {
    if IsSkipped(site, node.name) == Some(false) && node.File? && node.body.Some? then
      [Owned(Sanitized(site.abc, StemOf(node.name)), Describe(site, ChildOf(rel, node.name), node.body.value))]
    else []
  }

  predicate KeysDiffer(keys: seq<string>) {
    forall i, j :: 0 <= i < j < |keys| ==> keys[i] != keys[j]
  }

  /** Files under one key differ in the key of their extension. */
  predicate ExtensionsDiffer(site: Site, own: seq<Owned>) {
    forall i, j :: 0 <= i < j < |own| && own[i].key == own[j].key ==>
      ExtensionKey(site, own[i].asset) != ExtensionKey(site, own[j].asset)
  }

  /** Skipped, or read without an error: no bad pattern, unreadable file or sealed directory. */
  predicate IsReadable(site: Site, node: Node, rel: string)
    decreases node, 0
  {
    match IsSkipped(site, node.name)
    case None => false
    case Some(true) => true
    case Some(false) =>
      match node
      case File(_, body) => body.Some?
      case Sealed(_) => false
      case Folder(name, entries) => IsClean(site, entries, ChildOf(rel, name))
  }

  predicate AreReadable(site: Site, entries: seq<Node>, rel: string)
    decreases entries, 1
  {
    entries == [] || (IsReadable(site, entries[0], rel) && AreReadable(site, entries[1..], rel))
  }

  /** All is read, and no two siblings, folders or files, claim one key. */
  predicate IsClean(site: Site, entries: seq<Node>, rel: string)
    decreases entries, 2
  {
    var folders, own := FolderKeys(site, entries), OwnFiles(site, entries, rel);
    AreReadable(site, entries, rel) && KeysDiffer(folders) &&
    (forall o :: o in own ==> o.key !in folders) && ExtensionsDiffer(site, own)
  }

  // -------------------------------------------------------------- files under one key

  function FilesUnder(own: seq<Owned>, key: string): seq<Asset> {
    if own == [] then [] else (if own[0].key == key then [own[0].asset] else []) + FilesUnder(own[1..], key)
  }

  predicate AssetsDiffer(site: Site, assets: seq<Asset>) {
    forall i, j :: 0 <= i < j < |assets| ==> ExtensionKey(site, assets[i]) != ExtensionKey(site, assets[j])
  }

  lemma {:induction false} ExtensionsIff(site: Site, assets: seq<Asset>, taken: set<string>)
    ensures Extensions(site, assets, taken).Success? <==>
      AssetsDiffer(site, assets) && forall a :: a in assets ==> ExtensionKey(site, a) !in taken
  {
    hide ExtensionKey;
    if assets != [] {
      var key, rest := ExtensionKey(site, assets[0]), assets[1..];
      ExtensionsIff(site, rest, taken + {key});
      assert assets == [assets[0]] + rest;
      assert AssetsDiffer(site, assets) <==>
        AssetsDiffer(site, rest) && forall a :: a in rest ==> ExtensionKey(site, a) != key by {
        AssetsDifferCons(site, assets[0], rest);
      }
    }
  }

  lemma AssetsDifferCons(site: Site, first: Asset, rest: seq<Asset>)
    ensures AssetsDiffer(site, [first] + rest) <==>
      AssetsDiffer(site, rest) && forall a :: a in rest ==> ExtensionKey(site, a) != ExtensionKey(site, first)
  {
    hide ExtensionKey;
    var all := [first] + rest;
    assert forall i :: 0 <= i < |rest| ==> all[i + 1] == rest[i];
    if AssetsDiffer(site, all) {
      forall i | 0 <= i < |rest| ensures ExtensionKey(site, rest[i]) != ExtensionKey(site, first) {
        assert ExtensionKey(site, all[0]) != ExtensionKey(site, all[i + 1]);
      }
      forall i, j | 0 <= i < j < |rest| ensures ExtensionKey(site, rest[i]) != ExtensionKey(site, rest[j]) {
        assert ExtensionKey(site, all[i + 1]) != ExtensionKey(site, all[j + 1]);
      }
    }
  }

  lemma EntryForIff(site: Site, group: Group)
    ensures EntryFor(site, group).Success? <==> AssetsDiffer(site, group.assets)
  {
    ExtensionsIff(site, group.assets, {});
  }

  predicate GroupsDiffer(groups: seq<Group>) {
    forall i, j :: 0 <= i < j < |groups| ==> groups[i].key != groups[j].key
  }

  lemma {:induction false} EntriesForIff(site: Site, groups: seq<Group>, claimed: set<string>)
    requires GroupsDiffer(groups)
    ensures EntriesFor(site, groups, claimed).Success? <==>
      forall g :: g in groups ==> g.key !in claimed && AssetsDiffer(site, g.assets)
  {
    hide EntryFor, AssetsDiffer;
    if groups != [] {
      var first, rest := groups[0], groups[1..];
      assert groups == [first] + rest;
      EntryForIff(site, first);
      EntriesForIff(site, rest, claimed + {first.key});
      assert forall g :: g in rest ==> g.key != first.key;
    }
  }

  /** Groups that hold these files, each key once with all its files in order. */
  predicate IsGrouping(groups: seq<Group>, own: seq<Owned>) {
    && GroupsDiffer(groups)
    && (forall g :: g in groups ==> g.assets == FilesUnder(own, g.key) != [])
    && (forall o :: o in own ==> exists g :: g in groups && g.key == o.key)
  }

  lemma {:induction false} UnderSnoc(own: seq<Owned>, x: Owned, key: string)
    ensures FilesUnder(own + [x], key) == FilesUnder(own, key) + if x.key == key then [x.asset] else []
  {
    if own == [] {
      assert own + [x] == [x];
      assert FilesUnder([x], key) == (if x.key == key then [x.asset] else []) + FilesUnder([], key);
    } else {
      assert (own + [x])[1..] == own[1..] + [x];
      UnderSnoc(own[1..], x, key);
      var head, last := (if own[0].key == key then [own[0].asset] else []), (if x.key == key then [x.asset] else []);
      assert head + (FilesUnder(own[1..], key) + last) == head + FilesUnder(own[1..], key) + last;
    }
  }

  lemma {:induction false} UnderHolds(own: seq<Owned>, key: string)
    ensures FilesUnder(own, key) != [] <==> exists o :: o in own && o.key == key
  {
    if own != [] {
      UnderHolds(own[1..], key);
      assert own == [own[0]] + own[1..];
    }
  }

  /** One more file joins its key's group, or starts one. */
  lemma {:induction false} AddToIs(groups: seq<Group>, x: Owned)
    requires GroupsDiffer(groups)
    ensures GroupsDiffer(AddTo(groups, x))
    ensures forall g :: g in AddTo(groups, x) ==>
      if g.key != x.key then g in groups
      else
        (g.assets == [x.asset] && forall h :: h in groups ==> h.key != x.key) ||
        (exists h :: h in groups && h.key == x.key && g.assets == h.assets + [x.asset])
    ensures forall h :: h in groups && h.key != x.key ==> h in AddTo(groups, x)
    ensures exists g :: g in AddTo(groups, x) && g.key == x.key
  {
    var all := AddTo(groups, x);
    if groups == [] {
      assert all[0] in all;
    } else if groups[0].key == x.key {
      assert groups == [groups[0]] + groups[1..];
      assert all[0] in all && all[0].assets == groups[0].assets + [x.asset];
      assert forall i :: 0 < i < |all| ==> all[i] == groups[i];
    } else {
      AddToIs(groups[1..], x);
      var more := AddTo(groups[1..], x);
      assert groups == [groups[0]] + groups[1..] && all == [groups[0]] + more;
      assert forall g :: g in more ==> g.key != groups[0].key;
    }
  }

  lemma GroupingGrows(groups: seq<Group>, own: seq<Owned>, x: Owned)
    requires IsGrouping(groups, own)
    ensures IsGrouping(AddTo(groups, x), own + [x])
  {
    AddToIs(groups, x);
    hide AddTo, GroupsDiffer;
    var all := AddTo(groups, x);
    forall g | g in all ensures g.assets == FilesUnder(own + [x], g.key) != [] {
      UnderSnoc(own, x, g.key);
      UnderHolds(own, g.key);
      if g.key != x.key { assert FilesUnder(own, g.key) + [] == FilesUnder(own, g.key); }
    }
    forall o | o in own + [x] ensures exists g :: g in all && g.key == o.key {
      if o != x { assert o in own; }
    }
  }

  lemma {:induction false} GroupedIs(own: seq<Owned>, groups: seq<Group>, done: seq<Owned>)
    requires IsGrouping(groups, done)
    ensures IsGrouping(Grouped(own, groups), done + own)
  {
    hide IsGrouping, AddTo;
    if own == [] {
      assert done + own == done;
    } else {
      GroupingGrows(groups, done, own[0]);
      GroupedIs(own[1..], AddTo(groups, own[0]), done + [own[0]]);
      assert done + [own[0]] + own[1..] == done + own;
    }
  }

  ghost predicate AllUnderDiffer(site: Site, own: seq<Owned>) {
    forall key :: AssetsDiffer(site, FilesUnder(own, key))
  }

  lemma {:induction false} DifferUnder(site: Site, own: seq<Owned>)
    ensures ExtensionsDiffer(site, own) <==> AllUnderDiffer(site, own)
  {
    if own == [] {
      NoneDiffer(site);
    } else {
      var x, rest := own[0], own[1..];
      assert own == [x] + rest;
      hide ExtensionsDiffer;
      DifferUnder(site, rest);
      ExtensionsDifferCons(site, x, rest);
      AllUnderDifferCons(site, x, rest);
    }
  }

  lemma AllUnderDifferCons(site: Site, x: Owned, rest: seq<Owned>)
    ensures AllUnderDiffer(site, [x] + rest) <==> AllUnderDiffer(site, rest) && IsApartFrom(site, x, rest)
  {
    hide AssetsDiffer, IsApartFrom;
    if AllUnderDiffer(site, [x] + rest) {
      OneMoreUnder(site, x, rest, x.key);
      forall key ensures AssetsDiffer(site, FilesUnder(rest, key)) { OneMoreUnder(site, x, rest, key); }
    }
    if AllUnderDiffer(site, rest) && IsApartFrom(site, x, rest) {
      forall key ensures AssetsDiffer(site, FilesUnder([x] + rest, key)) { OneMoreUnder(site, x, rest, key); }
    }
  }

  lemma OneMoreUnder(site: Site, x: Owned, rest: seq<Owned>, key: string)
    ensures AssetsDiffer(site, FilesUnder([x] + rest, key)) <==>
      AssetsDiffer(site, FilesUnder(rest, key)) && (key == x.key ==> IsApartFrom(site, x, rest))
  {
    hide ExtensionKey, AssetsDiffer, IsApartFrom;
    assert ([x] + rest)[1..] == rest;
    if key == x.key {
      AssetsDifferCons(site, x.asset, FilesUnder(rest, key));
      ApartUnder(site, x, rest);
    } else {
      assert [] + FilesUnder(rest, key) == FilesUnder(rest, key);
    }
  }

  lemma NoneDiffer(site: Site)
    ensures AssetsDiffer(site, [])
  {
  }

  predicate IsApartFrom(site: Site, x: Owned, rest: seq<Owned>) {
    forall o :: o in rest && o.key == x.key ==> ExtensionKey(site, o.asset) != ExtensionKey(site, x.asset)
  }

  lemma {:induction false} ApartUnder(site: Site, x: Owned, rest: seq<Owned>)
    ensures IsApartFrom(site, x, rest) <==>
      forall a :: a in FilesUnder(rest, x.key) ==> ExtensionKey(site, a) != ExtensionKey(site, x.asset)
  {
    hide ExtensionKey;
    if rest != [] {
      ApartUnder(site, x, rest[1..]);
      assert rest == [rest[0]] + rest[1..];
    }
  }

  lemma ExtensionsDifferCons(site: Site, x: Owned, rest: seq<Owned>)
    ensures ExtensionsDiffer(site, [x] + rest) <==> ExtensionsDiffer(site, rest) && IsApartFrom(site, x, rest)
  {
    hide ExtensionKey;
    var all := [x] + rest;
    assert forall i :: 0 <= i < |rest| ==> all[i + 1] == rest[i];
    if ExtensionsDiffer(site, all) {
      forall i | 0 <= i < |rest| && rest[i].key == x.key
        ensures ExtensionKey(site, rest[i].asset) != ExtensionKey(site, x.asset)
      {
        assert all[0].key == all[i + 1].key;
      }
      forall i, j | 0 <= i < j < |rest| && rest[i].key == rest[j].key
        ensures ExtensionKey(site, rest[i].asset) != ExtensionKey(site, rest[j].asset)
      {
        assert all[i + 1].key == all[j + 1].key;
      }
    }
  }

  /** The files of a directory get their leaves exactly when they clash with no folder and not with each other. */
  lemma FilesIff(site: Site, own: seq<Owned>, claimed: set<string>)
    ensures EntriesFor(site, Grouped(own, []), claimed).Success? <==>
      (forall o :: o in own ==> o.key !in claimed) && ExtensionsDiffer(site, own)
  {
    hide EntriesFor, ExtensionsDiffer, AssetsDiffer, Grouped;
    var groups := Grouped(own, []);
    GroupedIs(own, [], []);
    assert [] + own == own;
    EntriesForIff(site, groups, claimed);
    DifferUnder(site, own);
    if (forall o :: o in own ==> o.key !in claimed) && ExtensionsDiffer(site, own) {
      forall g | g in groups ensures g.key !in claimed && AssetsDiffer(site, g.assets) {
        UnderHolds(own, g.key);
        assert AssetsDiffer(site, FilesUnder(own, g.key));
      }
    }
    if EntriesFor(site, groups, claimed).Success? {
      forall key ensures AssetsDiffer(site, FilesUnder(own, key)) {
        UnderHolds(own, key);
        NoneDiffer(site);
        if FilesUnder(own, key) != [] {
          var g :| g in groups && g.key == key;
        }
      }
      forall o | o in own ensures o.key !in claimed {
        var g :| g in groups && g.key == o.key;
      }
    }
  }

  // ------------------------------------------------------------------------- the walk

  predicate AreFree(keys: seq<string>, claimed: set<string>) {
    forall k :: k in keys ==> k !in claimed
  }

  function KeySet(keys: seq<string>): set<string> {
    set k | k in keys
  }

  lemma WalkCons(site: Site, entries: seq<Node>, rel: string, acc: Walked)
    requires entries != []
    ensures FolderKeys(site, entries) == OwnKey(site, entries[0]) + FolderKeys(site, entries[1..])
    ensures OwnFiles(site, entries, rel) == OwnFile(site, entries[0], rel) + OwnFiles(site, entries[1..], rel)
    ensures AreReadable(site, entries, rel) <==>
      IsReadable(site, entries[0], rel) && AreReadable(site, entries[1..], rel)
    ensures var next := Visit(site, entries[0], rel, acc);
      if next.Failure? then Walk(site, entries, rel, acc).Failure?
      else Walk(site, entries, rel, acc) == Walk(site, entries[1..], rel, next.value)
  {
    hide Visit, IsReadable, OwnFile, OwnKey;
  }

  lemma WalkNone(site: Site, rel: string, acc: Walked)
    ensures Walk(site, [], rel, acc) == Success(acc) && AreReadable(site, [], rel)
    ensures FolderKeys(site, []) == [] && KeysDiffer([]) && AreFree([], acc.claimed)
    ensures acc.own + OwnFiles(site, [], rel) == acc.own && acc.claimed + KeySet([]) == acc.claimed
  {
  }

  lemma {:induction false} WalkIff(site: Site, entries: seq<Node>, rel: string, acc: Walked)
    ensures var r, folders := Walk(site, entries, rel, acc), FolderKeys(site, entries);
      && (r.Success? <==>
          AreReadable(site, entries, rel) && KeysDiffer(folders) && AreFree(folders, acc.claimed))
      && (r.Success? ==> r.value.own == acc.own + OwnFiles(site, entries, rel) &&
                         r.value.claimed == acc.claimed + KeySet(folders))
    decreases entries, 0
  {
    hide *;
    if entries == [] {
      WalkNone(site, rel, acc);
    } else {
      var next, first, folders := Visit(site, entries[0], rel, acc), OwnKey(site, entries[0]), FolderKeys(site, entries[1..]);
      var own, files := OwnFile(site, entries[0], rel), OwnFiles(site, entries[1..], rel);
      WalkCons(site, entries, rel, acc);
      OneKey(site, entries[0]);
      VisitIff(site, entries[0], rel, acc);
      FreeCons(first, folders, acc.claimed);
      if next.Success? {
        WalkIff(site, entries[1..], rel, next.value);
        assert acc.own + own + files == acc.own + (own + files);
      }
    }
  }

  lemma OneKey(site: Site, node: Node)
    ensures |OwnKey(site, node)| <= 1
  {
  }

  /** Claiming a key and then the rest is claiming them all. */
  lemma FreeCons(first: seq<string>, rest: seq<string>, claimed: set<string>)
    requires |first| <= 1
    ensures KeysDiffer(first + rest) && AreFree(first + rest, claimed) <==>
      AreFree(first, claimed) && KeysDiffer(rest) && AreFree(rest, claimed + KeySet(first))
    ensures claimed + KeySet(first) + KeySet(rest) == claimed + KeySet(first + rest)
  {
    var all := first + rest;
    if first == [] {
      assert all == rest && claimed + KeySet(first) == claimed;
    } else {
      assert KeySet(first) == {first[0]} && first == [first[0]];
      assert forall i :: 0 <= i < |rest| ==> all[i + 1] == rest[i];
      KeysDifferCons(first[0], rest);
    }
  }

  lemma KeysDifferCons(x: string, rest: seq<string>)
    ensures KeysDiffer([x] + rest) <==> KeysDiffer(rest) && x !in rest
  {
    var all := [x] + rest;
    if KeysDiffer(all) {
      forall i | 0 <= i < |rest| ensures rest[i] != x { assert all[0] != all[i + 1]; }
      forall i, j | 0 <= i < j < |rest| ensures rest[i] != rest[j] { assert all[i + 1] != all[j + 1]; }
    }
  }

  lemma {:induction false} VisitIff(site: Site, node: Node, rel: string, acc: Walked)
    ensures var r, key := Visit(site, node, rel, acc), OwnKey(site, node);
      && (r.Success? <==> IsReadable(site, node, rel) && AreFree(key, acc.claimed))
      && (r.Success? ==> r.value.own == acc.own + OwnFile(site, node, rel) && r.value.claimed == acc.claimed + KeySet(key))
    decreases node, 2
  {
    hide Sanitized, Describe, ScanDir, IsClean;
    assert acc.own + [] == acc.own && acc.claimed + {} == acc.claimed && KeySet([]) == {};
    if IsSkipped(site, node.name) == Some(false) && node.Folder? {
      ScanIff(site, node.entries, ChildOf(rel, node.name));
      assert KeySet([Sanitized(site.abc, node.name)]) == {Sanitized(site.abc, node.name)};
    }
  }

  /** A scan succeeds exactly when all that is not skipped is read and no two siblings claim one key, here or below. */
  lemma {:induction false} ScanIff(site: Site, entries: seq<Node>, rel: string)
    ensures ScanDir(site, entries, rel).Success? <==> IsClean(site, entries, rel)
    decreases entries, 1
  {
    hide Walk, EntriesFor, AreReadable, KeysDiffer, ExtensionsDiffer;
    var walked, folders := Walk(site, entries, rel, Walked([], [], {})), FolderKeys(site, entries);
    WalkIff(site, entries, rel, Walked([], [], {}));
    if walked.Success? {
      assert [] + OwnFiles(site, entries, rel) == OwnFiles(site, entries, rel);
      FilesIff(site, walked.value.own, walked.value.claimed);
    }
  }
}

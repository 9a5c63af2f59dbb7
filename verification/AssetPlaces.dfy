/**
 Where internal/static/manifest.go puts what it finds: which files are served, under
 which names, and what the directories of the tree are called.
 */
module AssetPlaces {
  import opened Wrappers
  import opened Text
  import opened Sorting
  import opened AssetUrls
  import opened AssetTree

  // --------------------------------------------------------------- files and trails

  /** Not ignored by any pattern, and no dotfile. */
  predicate IsServed(site: Site, name: string) {
    site.ignore(name) == Some(false) && (name == "" || name[0] != '.')
  }

  /** Through folders that are served, to a file that is and can be read. */
  predicate LeadsTo(site: Site, entries: seq<Node>, names: seq<string>, body: string)
    decreases |names|
  {
    names != [] && IsServed(site, names[0]) &&
    if |names| == 1 then File(names[0], Some(body)) in entries
    else exists i :: 0 <= i < |entries| && entries[i].Folder? && entries[i].name == names[0] &&
                     LeadsTo(site, entries[i].entries, names[1..], body)
  }

  /** The names with slashes between them. */
  function Joined(names: seq<string>): string {
    if names == [] then "" else if |names| == 1 then names[0] else names[0] + "/" + Joined(names[1..])
  }

  /** Below a directory; the scanned one itself has no name. */
  function Below(rel: string, names: seq<string>): string {
    if rel == "" then Joined(names) else rel + "/" + Joined(names)
  }

  /** A file at the end of a trail: where it lies, and its public path with the digest before the extension. */
  function Placed(site: Site, rel: string, body: string): Asset {
    var ext := Ext(rel);
    Asset(rel, site.root + "/" + rel, site.mount + (rel[..|rel| - |ext|] + "." + site.digest(body) + ext))
  }

  lemma ServedIff(site: Site, name: string)
    ensures IsServed(site, name) <==> IsSkipped(site, name) == Some(false)
  {
    assert "." <= name <==> name != "" && name[0] == '.';
  }

  lemma ChildIsBelow(rel: string, name: string, names: seq<string>)
    requires name != "" && names != []
    ensures Below(ChildOf(rel, name), names) == Below(rel, [name] + names)
  {
    assert ([name] + names)[1..] == names;
    if rel != "" {
      assert (rel + "/" + name) + "/" + Joined(names) == rel + "/" + (name + "/" + Joined(names));
    }
  }

  lemma ChildIs(rel: string, name: string)
    ensures ChildOf(rel, name) == Below(rel, [name])
  {
  }

  /** Entries have names. */
  predicate AreNamed(entries: seq<Node>)
    decreases entries
  {
    entries == [] || (entries[0].name != "" && (entries[0].Folder? ==> AreNamed(entries[0].entries)) && AreNamed(entries[1..]))
  }

  ghost predicate IsServable(site: Site, entries: seq<Node>, rel: string, a: Asset) {
    exists names, body :: LeadsTo(site, entries, names, body) && a == Placed(site, Below(rel, names), body)
  }

  /** What is to be served is exactly what lies at the end of a trail, under the trail's names. */
  lemma {:induction false} ServableIff(site: Site, entries: seq<Node>, rel: string, a: Asset)
    requires AreNamed(entries)
    ensures a in Servable(site, entries, rel) <==> IsServable(site, entries, rel, a)
    decreases entries, 1
  {
    hide Placed, IsSkipped, LeadsTo;
    if entries == [] {
      forall names, body ensures !LeadsTo(site, [], names, body) { NoTrail(site, names, body); }
    } else {
      var first, rest := entries[0], entries[1..];
      ServableIff(site, rest, rel, a);
      NodeIff(site, first, rel, a);
      assert entries == [first] + rest;
      forall names: seq<string>, body: string
        ensures LeadsTo(site, entries, names, body) <==>
          LeadsTo(site, [first], names, body) || LeadsTo(site, rest, names, body)
      {
        TrailSplits(site, first, rest, names, body);
      }
    }
  }

  lemma NoTrail(site: Site, names: seq<string>, body: string)
    ensures !LeadsTo(site, [], names, body)
  {
  }

  lemma TrailSplits(site: Site, first: Node, rest: seq<Node>, names: seq<string>, body: string)
    ensures LeadsTo(site, [first] + rest, names, body) <==>
      LeadsTo(site, [first], names, body) || LeadsTo(site, rest, names, body)
  {
    var all := [first] + rest;
    if |names| > 1 && LeadsTo(site, all, names, body) {
      var i :| 0 <= i < |all| && all[i].Folder? && all[i].name == names[0] && LeadsTo(site, all[i].entries, names[1..], body);
      if i > 0 { assert rest[i - 1] == all[i]; } else { assert [first][0] == all[i]; }
    }
    if |names| > 1 && LeadsTo(site, rest, names, body) {
      var i :| 0 <= i < |rest| && rest[i].Folder? && rest[i].name == names[0] && LeadsTo(site, rest[i].entries, names[1..], body);
      assert all[i + 1] == rest[i];
    }
    if |names| > 1 && LeadsTo(site, [first], names, body) { assert all[0] == first; }
  }

  lemma {:induction false} NodeIff(site: Site, node: Node, rel: string, a: Asset)
    requires node.name != "" && (node.Folder? ==> AreNamed(node.entries))
    ensures a in ServableNode(site, node, rel) <==> IsServable(site, [node], rel, a)
    decreases node, 2
  {
    ServedIff(site, node.name);
    hide Placed, IsSkipped, IsServed, IsServable, LeadsTo, Describe, Servable;
    if !IsServed(site, node.name) || node.Sealed? {
      NothingServable(site, node, rel, a);
    } else if node.File? {
      FileIff(site, node, rel, a);
    } else {
      ServableIff(site, node.entries, ChildOf(rel, node.name), a);
      FolderIff(site, node, rel, a);
    }
  }

  lemma NothingServable(site: Site, node: Node, rel: string, a: Asset)
    requires !IsServed(site, node.name) || node.Sealed?
    ensures !IsServable(site, [node], rel, a)
  {
    hide IsServed;
    forall names, body ensures !LeadsTo(site, [node], names, body) {
    }
  }

  lemma FileIff(site: Site, node: Node, rel: string, a: Asset)
    requires IsServed(site, node.name) && node.File?
    ensures IsServable(site, [node], rel, a) <==>
      node.body.Some? && a == Describe(site, ChildOf(rel, node.name), node.body.value)
  {
    hide Placed, IsServed, Describe;
    if node.body.Some? {
      DescribedIsPlaced(site, ChildOf(rel, node.name), node.body.value);
      ChildIs(rel, node.name);
      assert LeadsTo(site, [node], [node.name], node.body.value);
    }
    forall names, text | LeadsTo(site, [node], names, text) ensures names == [node.name] && node.body == Some(text) {
    }
  }

  lemma FolderIff(site: Site, node: Node, rel: string, a: Asset)
    requires IsServed(site, node.name) && node.Folder? && node.name != ""
    ensures IsServable(site, [node], rel, a) <==> IsServable(site, node.entries, ChildOf(rel, node.name), a)
  {
    hide Placed, IsServed, LeadsTo, Below, ChildOf;
    var name, child := node.name, ChildOf(rel, node.name);
    forall names: seq<string>, body: string
      ensures LeadsTo(site, [node], [name] + names, body) <==> LeadsTo(site, node.entries, names, body)
    {
      FolderLeads(site, node, names, body);
    }
    if IsServable(site, node.entries, child, a) {
      var names, body :| LeadsTo(site, node.entries, names, body) && a == Placed(site, Below(child, names), body);
      TrailIsLong(site, node.entries, names, body);
      ChildIsBelow(rel, name, names);
      assert LeadsTo(site, [node], [name] + names, body);
    }
    if IsServable(site, [node], rel, a) {
      var names, body :| LeadsTo(site, [node], names, body) && a == Placed(site, Below(rel, names), body);
      FolderFirst(site, node, names, body);
      TrailIsLong(site, node.entries, names[1..], body);
      ChildIsBelow(rel, name, names[1..]);
      assert LeadsTo(site, node.entries, names[1..], body);
    }
  }

  lemma FolderLeads(site: Site, node: Node, names: seq<string>, body: string)
    requires IsServed(site, node.name) && node.Folder?
    ensures LeadsTo(site, [node], [node.name] + names, body) <==> LeadsTo(site, node.entries, names, body)
  {
    hide IsServed;
    assert ([node.name] + names)[1..] == names && [node][0] == node;
    if names == [] { assert !LeadsTo(site, node.entries, names, body); }
  }

  lemma FolderFirst(site: Site, node: Node, names: seq<string>, body: string)
    requires node.Folder? && LeadsTo(site, [node], names, body)
    ensures names == [node.name] + names[1..] && LeadsTo(site, node.entries, names[1..], body)
  {
    hide IsServed;
  }

  lemma TrailIsLong(site: Site, entries: seq<Node>, names: seq<string>, body: string)
    requires LeadsTo(site, entries, names, body)
    ensures names != []
  {
  }

  lemma DescribedIsPlaced(site: Site, rel: string, body: string)
    ensures Describe(site, rel, body) == Placed(site, rel, body)
  {
  }

  // ------------------------------------------------------------------ extension keys

  /** A file's extension without its dot, made an identifier, is its key below the shared one. */
  lemma ExtensionKeyIs(site: Site, asset: Asset, stem: string, part: string)
    requires IsPart(part) && part != "" && asset.rel == stem + "." + part && !site.abc.isDigit('_')
    ensures ExtensionKey(site, asset) == Sanitized(site.abc, part)
  {
    ExtIs(stem, part);
    hide Ext, Sanitized, IsPart;
    SanitizedIsIdentifier(site.abc, part);
    assert ("." + part)[1..] == part;
    assert "." <= "." + part;
  }

  /** One with none, or with nothing after the dot, is filed under `none`. */
  lemma NoExtensionKey(site: Site, asset: Asset)
    requires Ext(asset.rel) == "" || Ext(asset.rel) == "."
    ensures ExtensionKey(site, asset) == "none"
  {
    assert "."[1..] == "";
  }

  // -------------------------------------------------------------- the tree's directories

  /** The scanned directory, and every one below, is called by its folder's key and lies where the folder does. */
  lemma ScannedIsNamed(site: Site, entries: seq<Node>, rel: string)
    requires ScanDir(site, entries, rel).Success?
    ensures var d := ScanDir(site, entries, rel).value;
      && d.name == "" && d.rel == rel && AreSorted(d.dirs, DirName) && AreSorted(d.files, EntryKey)
      && forall below :: below in d.dirs ==> exists i :: 0 <= i < |entries| && IsDirOf(site, entries[i], rel, below)
  {
    hide Walk, EntriesFor;
    var walked := Walk(site, entries, rel, Walked([], [], {})).value;
    var files := EntriesFor(site, Grouped(walked.own, []), walked.claimed).value;
    SortSorts(walked.dirs, DirName);
    SortSorts(files, EntryKey);
    WalkNames(site, entries, rel, Walked([], [], {}), walked);
    var d := ScanDir(site, entries, rel).value;
    forall below | below in d.dirs ensures exists i :: 0 <= i < |entries| && IsDirOf(site, entries[i], rel, below) {
      assert below in multiset(d.dirs);
      assert below in walked.dirs;
    }
  }

  predicate IsDirOf(site: Site, node: Node, rel: string, d: Dir) {
    node.Folder? && IsServed(site, node.name) && d.name == Sanitized(site.abc, node.name) && d.rel == ChildOf(rel, node.name)
  }

  lemma {:induction false} WalkNames(site: Site, entries: seq<Node>, rel: string, acc: Walked, walked: Walked)
    requires Walk(site, entries, rel, acc) == Success(walked)
    ensures forall d :: d in walked.dirs ==>
      d in acc.dirs || exists i :: 0 <= i < |entries| && IsDirOf(site, entries[i], rel, d)
    decreases entries
  {
    hide Visit, IsDirOf;
    if entries != [] {
      var next := Visit(site, entries[0], rel, acc).value;
      WalkNames(site, entries[1..], rel, next, walked);
      VisitNames(site, entries[0], rel, acc, next);
      forall d | d in walked.dirs && d !in acc.dirs
        ensures exists i :: 0 <= i < |entries| && IsDirOf(site, entries[i], rel, d)
      {
        if d in next.dirs {
          assert IsDirOf(site, entries[0], rel, d);
        } else {
          var i :| 0 <= i < |entries[1..]| && IsDirOf(site, entries[1..][i], rel, d);
          assert IsDirOf(site, entries[i + 1], rel, d);
        }
      }
    }
  }

  lemma VisitNames(site: Site, node: Node, rel: string, acc: Walked, next: Walked)
    requires Visit(site, node, rel, acc) == Success(next)
    ensures forall d :: d in next.dirs ==> d in acc.dirs || IsDirOf(site, node, rel, d)
  {
    ServedIff(site, node.name);
    hide Walk, EntriesFor, Sanitized, IsServed;
  }

  // ---------------------------------------------------------------------- what it fails with

  /** The first entry that fails the walk, and why: a pattern, what cannot be read, or a key claimed before. */
  lemma FailureIs(site: Site, node: Node, rel: string, acc: Walked)
    ensures site.ignore(node.name).None? ==> Visit(site, node, rel, acc) == Failure(BadPattern(node.name))
    ensures IsServed(site, node.name) && node.File? && node.body.None? ==>
      Visit(site, node, rel, acc) == Failure(Unreadable(ChildOf(rel, node.name)))
    ensures IsServed(site, node.name) && !node.File? && Sanitized(site.abc, node.name) in acc.claimed ==>
      Visit(site, node, rel, acc) == Failure(Collision(Sanitized(site.abc, node.name)))
    ensures IsServed(site, node.name) && node.Sealed? && Sanitized(site.abc, node.name) !in acc.claimed ==>
      Visit(site, node, rel, acc) == Failure(Unreadable(ChildOf(rel, node.name)))
  {
    ServedIff(site, node.name);
    hide ScanDir, Sanitized;
  }
}

/**
 Bundle cache coherence: bundler.go's invalidation, render.go's compiledArtifact,
 and the file events between them, as one state machine.

 Bundling is a parameter. A render that misses every cache is three steps: it
 reads the sources, records them in the index, and stores what it built.
 */
module Coherence {
  import opened Wrappers
  import opened Caches
  import DiskCaching

  type Files = map<string, string>

  datatype Built = Built(artifact: string, sources: set<string>)

  /** What bundling a component over some files gives; none when it fails. */
  type Bundling = (string, Files) -> Option<Built>

  datatype Kind = Created | Changed | Deleted

  datatype Event = Event(path: string, kind: Kind)

  /** Which watcher turns events into invalidations. A reactive registry names files. */
  datatype Mode = Hmr | Reactive(nameFor: map<string, string>)

  /** An artifact, and the files it was built over. The caches hold the artifact alone. */
  datatype Entry = Entry(built: Built, seen: Files)

  datatype Stored = Stored(entry: Entry, recorded: Files)

  /** A render between reading and storing. */
  datatype Flight = Flight(key: CacheKey, entry: Entry, fromDisk: bool, recorded: bool)

  datatype State = State(
    files: Files,
    queue: multiset<Event>,          // events no watcher has seen yet
    due: set<string>,                // components seen to be affected, not yet invalidated
    mem: map<CacheKey, Entry>,
    disk: map<CacheKey, Stored>,
    index: set<(string, string)>,    // source, component
    flights: map<nat, Flight>,
    next: nat)

  datatype Step =
    | Edit(path: string, text: Option<string>)
    | Arrive(event: Event)
    | Invalidate(component: string)
    | Read(key: CacheKey)
    | ReadDisk(key: CacheKey)
    | Record(id: nat)
    | Store(id: nat)

  function At(files: Files, path: string): Option<string> {
    if path in files then Some(files[path]) else None
  }

  function Put(files: Files, path: string, text: Option<string>): Files {
    match text
    case Some(t) => files[path := t]
    case None => files - {path}
  }

  function KindOf(files: Files, path: string, text: Option<string>): Kind {
    if text.None? then Deleted else if path in files then Changed else Created
  }

  function Start(files: Files): State {
    State(files, multiset{}, {}, map[], map[], {}, map[], 0)
  }

  /** A new process over the same directories: only what is on disk is left. */
  function Restart(s: State): State {
    Start(s.files).(disk := s.disk)
  }

  function Dependents(index: set<(string, string)>, path: string): set<string> {
    set pair | pair in index && pair.0 == path :: pair.1
  }

  function InFile(s: State, file: string): set<string> {
    {file} + (set k | k in s.mem && IsInFile(k.component, file) :: k.component)
           + (set k | k in s.disk && IsInFile(k.component, file) :: k.component)
  }

  /** The components an event invalidates. */
  function Affected(mode: Mode, s: State, e: Event): set<string> {
    match mode
    case Hmr => Dependents(s.index, e.path)
    case Reactive(nameFor) =>
      if e.kind.Deleted? then (if e.path in nameFor then {nameFor[e.path]} else {})
      else Dependents(s.index, e.path) + if e.path in nameFor then InFile(s, nameFor[e.path]) else {}
  }

  /** What `DiskCache.Put` records of the sources. */
  function Digests(sources: set<string>, files: Files): Files {
    map p | p in sources && p in files :: files[p]
  }

  predicate IsLive(s: State, key: CacheKey) {
    key in s.disk && DiskCaching.Holds(s.disk[key].recorded, s.files)
  }

  predicate CanStep(b: Bundling, s: State, step: Step) {
    match step
    case Edit(path, text) => text.Some? || path in s.files
    case Arrive(e) => e in s.queue
    case Invalidate(c) => c in s.due
    case Read(key) => key !in s.mem && !IsLive(s, key) && b(key.component, s.files).Some?
    case ReadDisk(key) => key !in s.mem && IsLive(s, key)
    case Record(id) => id in s.flights && !s.flights[id].fromDisk
    case Store(id) => id in s.flights && (s.flights[id].fromDisk || s.flights[id].recorded)
  }

  function After(b: Bundling, mode: Mode, s: State, step: Step): State
    requires CanStep(b, s, step)
  {
    match step
    case Edit(path, text) =>
      s.(files := Put(s.files, path, text), queue := s.queue + multiset{Event(path, KindOf(s.files, path, text))})
    case Arrive(e) => s.(queue := s.queue - multiset{e}, due := s.due + Affected(mode, s, e))
    case Invalidate(c) =>
      s.(due := s.due - {c},
         mem := map k | k in s.mem && k.component != c :: s.mem[k],
         disk := map k | k in s.disk && k.component != c :: s.disk[k])
    case Read(key) =>
      var entry := Entry(b(key.component, s.files).value, s.files);
      s.(flights := s.flights[s.next := Flight(key, entry, false, false)], next := s.next + 1)
    case ReadDisk(key) =>
      s.(flights := s.flights[s.next := Flight(key, s.disk[key].entry, true, false)], next := s.next + 1)
    case Record(id) =>
      var f := s.flights[id];
      s.(index := s.index + (set p | p in f.entry.built.sources :: (p, f.key.component)),
         flights := s.flights[id := f.(recorded := true)])
    case Store(id) =>
      var f := s.flights[id];
      var stored := Stored(f.entry, Digests(f.entry.built.sources, s.files));
      s.(mem := s.mem[f.key := f.entry],
         disk := if f.fromDisk then s.disk else s.disk[f.key := stored],
         flights := s.flights - {id})
  }

  // -------------------------------------------------------------- what a render returns

  function Scratch(b: Bundling, s: State, key: CacheKey): Option<string> {
    var built := b(key.component, s.files);
    if built.Some? then Some(built.value.artifact) else None
  }

  function Served(b: Bundling, s: State, key: CacheKey): Option<string> {
    if key in s.mem then Some(s.mem[key].built.artifact)
    else if IsLive(s, key) then Some(s.disk[key].entry.built.artifact)
    else Scratch(b, s, key)
  }

  ghost predicate IsCoherent(b: Bundling, s: State) {
    forall key :: Served(b, s, key) == Scratch(b, s, key)
  }

  /** Every event has been seen, and every component it affects invalidated. */
  predicate IsQuiet(s: State) {
    s.queue == multiset{} && s.due == {}
  }

  /** Bundling looks at no file it does not report. */
  ghost predicate ReportsAll(b: Bundling) {
    forall c: string, f: Files, g: Files ::
      b(c, f).Some? && (forall p :: p in b(c, f).value.sources ==> At(f, p) == At(g, p)) ==> b(c, g) == b(c, f)
  }

  // --------------------------------------------------------------------- the invariant

  predicate IsQueued(queue: multiset<Event>, path: string) {
    exists e :: e in queue && e.path == path
  }

  predicate HasChanged(entry: Entry, files: Files, path: string) {
    At(entry.seen, path) != At(files, path)
  }

  /** Where the files moved on from what was bundled, an event or an invalidation is to come. */
  predicate IsCovered(s: State, component: string, entry: Entry) {
    component in s.due ||
    forall p :: p in entry.built.sources && HasChanged(entry, s.files, p) ==> IsQueued(s.queue, p)
  }

  predicate IsIndexed(s: State, component: string, entry: Entry) {
    forall p :: p in entry.built.sources ==> (p, component) in s.index
  }

  predicate IsBuild(b: Bundling, component: string, entry: Entry) {
    b(component, entry.seen) == Some(entry.built)
  }

  /** What the digests say changed since is on its way too. */
  predicate IsRecorded(s: State, component: string, stored: Stored) {
    component in s.due ||
    forall p :: p in stored.entry.built.sources && At(stored.recorded, p) != At(s.files, p) ==> IsQueued(s.queue, p)
  }

  predicate IsKept(b: Bundling, s: State, component: string, entry: Entry) {
    IsBuild(b, component, entry) && IsCovered(s, component, entry) && IsIndexed(s, component, entry)
  }

  /** On disk, an entry that recorded no source is never looked at again. */
  predicate IsFiled(b: Bundling, s: State, component: string, stored: Stored) {
    stored.recorded == map[] ||
    (IsKept(b, s, component, stored.entry) && IsRecorded(s, component, stored) &&
     stored.recorded.Keys <= stored.entry.built.sources)
  }

  predicate Inv(b: Bundling, s: State) {
    && (forall k :: k in s.mem ==> IsKept(b, s, k.component, s.mem[k]))
    && (forall k :: k in s.disk ==> IsFiled(b, s, k.component, s.disk[k]))
    && (forall id :: id in s.flights ==> id < s.next && IsFlying(b, s, s.flights[id]))
  }

  predicate IsFlying(b: Bundling, s: State, f: Flight) {
    && IsBuild(b, f.key.component, f.entry) && IsCovered(s, f.key.component, f.entry)
    && (f.recorded || f.fromDisk ==> IsIndexed(s, f.key.component, f.entry))
  }

  lemma StartInv(b: Bundling, files: Files)
    ensures Inv(b, Start(files)) && IsQuiet(Start(files))
  {
  }

  // ------------------------------------------------------ what the invariant is good for

  lemma EntryIsFresh(b: Bundling, s: State, component: string, entry: Entry)
    requires ReportsAll(b) && IsBuild(b, component, entry)
    requires forall p :: p in entry.built.sources ==> !HasChanged(entry, s.files, p)
    ensures b(component, s.files) == Some(entry.built)
  {
    assert forall p :: p in b(component, entry.seen).value.sources ==> At(entry.seen, p) == At(s.files, p);
  }

  /** Once every event is handled, a render returns what bundling from scratch would. */
  lemma QuietIsCoherent(b: Bundling, s: State)
    requires ReportsAll(b) && Inv(b, s) && IsQuiet(s)
    ensures IsCoherent(b, s)
  {
    forall key: CacheKey ensures Served(b, s, key) == Scratch(b, s, key) {
      if key in s.mem {
        EntryIsFresh(b, s, key.component, s.mem[key]);
      } else if IsLive(s, key) {
        EntryIsFresh(b, s, key.component, s.disk[key].entry);
      }
    }
  }

  /** While events are pending, a stale memory entry is about to go, or has a source among them. */
  lemma StaleHasPendingSource(b: Bundling, s: State, key: CacheKey)
    requires ReportsAll(b) && Inv(b, s) && key in s.mem && Served(b, s, key) != Scratch(b, s, key)
    ensures key.component in s.due || exists p :: p in s.mem[key].built.sources && IsQueued(s.queue, p)
  {
    if forall p :: p in s.mem[key].built.sources ==> !HasChanged(s.mem[key], s.files, p) {
      EntryIsFresh(b, s, key.component, s.mem[key]);
    }
  }

  // ------------------------------------------------------------------ keeping it

  /** An event would be seen without anything left to catch this entry. */
  predicate Escapes(s: State, e: Event, affected: set<string>, component: string, seen: Files, sources: set<string>) {
    && e.path in sources && At(seen, e.path) != At(s.files, e.path)
    && !IsQueued(s.queue - multiset{e}, e.path) && component !in s.due + affected
  }

  /** No event is seen, and no component invalidated, behind the back of a render that read too early. */
  predicate NoRace(mode: Mode, s: State, step: Step) {
    match step
    case Arrive(e) =>
      forall id :: id in s.flights ==>
        var f := s.flights[id];
        !Escapes(s, e, Affected(mode, s, e), f.key.component, f.entry.seen, f.entry.built.sources)
    case Invalidate(c) =>
      forall id :: id in s.flights && s.flights[id].key.component == c ==>
        IsCovered(s.(due := s.due - {c}), c, s.flights[id].entry)
    case _ => true
  }

  /** A reactive registry drops a deleted file's own component alone: no other may have read it. */
  predicate NoOrphan(mode: Mode, s: State, step: Step) {
    step.Arrive? && mode.Reactive? && step.event.kind.Deleted? ==>
      var affected := Affected(mode, s, step.event);
      && (forall k :: k in s.mem ==>
            !Escapes(s, step.event, affected, k.component, s.mem[k].seen, s.mem[k].built.sources))
      && (forall k :: k in s.disk && s.disk[k].recorded != map[] ==>
            !Escapes(s, step.event, affected, k.component, s.disk[k].entry.seen, s.disk[k].entry.built.sources) &&
            !Escapes(s, step.event, affected, k.component, s.disk[k].recorded, s.disk[k].entry.built.sources))
  }

  predicate IsGuarded(mode: Mode, s: State, step: Step) {
    NoRace(mode, s, step) && NoOrphan(mode, s, step)
  }

  lemma QueueGrows(queue: multiset<Event>, e: Event, path: string)
    ensures IsQueued(queue, path) || path == e.path ==> IsQueued(queue + multiset{e}, path)
  {
    assert e in queue + multiset{e};
    if IsQueued(queue, path) {
      var o :| o in queue && o.path == path;
      assert o in queue + multiset{e};
    }
  }

  lemma QueueShrinks(queue: multiset<Event>, e: Event, path: string)
    requires IsQueued(queue, path) && path != e.path
    ensures IsQueued(queue - multiset{e}, path)
  {
    var o :| o in queue && o.path == path;
    assert o in queue - multiset{e};
  }

  /** Any view of the sources that an edit makes differ, it also puts an event behind. */
  lemma EditKeeps(b: Bundling, mode: Mode, s: State, path: string, text: Option<string>, seen: Files, p: string)
    requires CanStep(b, s, Edit(path, text))
    requires At(seen, p) != At(s.files, p) ==> IsQueued(s.queue, p)
    ensures var t := After(b, mode, s, Edit(path, text)); At(seen, p) != At(t.files, p) ==> IsQueued(t.queue, p)
  {
    QueueGrows(s.queue, Event(path, KindOf(s.files, path, text)), p);
  }

  lemma EditInv(b: Bundling, mode: Mode, s: State, path: string, text: Option<string>)
    requires Inv(b, s) && CanStep(b, s, Edit(path, text))
    ensures Inv(b, After(b, mode, s, Edit(path, text)))
  {
    var t := After(b, mode, s, Edit(path, text));
    forall c: string, entry | IsCovered(s, c, entry) ensures IsCovered(t, c, entry) {
      forall p | c !in s.due && p in entry.built.sources && HasChanged(entry, t.files, p) ensures IsQueued(t.queue, p) {
        EditKeeps(b, mode, s, path, text, entry.seen, p);
      }
    }
    forall c: string, stored | IsRecorded(s, c, stored) ensures IsRecorded(t, c, stored) {
      forall p | c !in s.due && p in stored.entry.built.sources && At(stored.recorded, p) != At(t.files, p)
        ensures IsQueued(t.queue, p)
      {
        EditKeeps(b, mode, s, path, text, stored.recorded, p);
      }
    }
    hide IsCovered, IsRecorded;
  }

  /** What does not escape an arrival stays covered by the rest. */
  lemma ArriveKeeps(b: Bundling, mode: Mode, s: State, e: Event, c: string, entry: Entry, seen: Files, p: string)
    requires CanStep(b, s, Arrive(e)) && p in entry.built.sources
    requires At(seen, p) != At(s.files, p) ==> IsQueued(s.queue, p)
    requires !Escapes(s, e, Affected(mode, s, e), c, seen, entry.built.sources)
    ensures var t := After(b, mode, s, Arrive(e));
      c in t.due || (At(seen, p) != At(t.files, p) ==> IsQueued(t.queue, p))
  {
    if At(seen, p) != At(s.files, p) && p != e.path { QueueShrinks(s.queue, e, p); }
  }

  lemma ArriveCovers(b: Bundling, mode: Mode, s: State, e: Event, c: string, entry: Entry)
    requires CanStep(b, s, Arrive(e)) && IsCovered(s, c, entry)
    requires !Escapes(s, e, Affected(mode, s, e), c, entry.seen, entry.built.sources)
    ensures IsCovered(After(b, mode, s, Arrive(e)), c, entry)
  {
    var t := After(b, mode, s, Arrive(e));
    forall p | c !in t.due && p in entry.built.sources && HasChanged(entry, t.files, p) ensures IsQueued(t.queue, p) {
      ArriveKeeps(b, mode, s, e, c, entry, entry.seen, p);
    }
  }

  lemma ArriveRecorded(b: Bundling, mode: Mode, s: State, e: Event, c: string, stored: Stored)
    requires CanStep(b, s, Arrive(e)) && IsRecorded(s, c, stored)
    requires !Escapes(s, e, Affected(mode, s, e), c, stored.recorded, stored.entry.built.sources)
    ensures IsRecorded(After(b, mode, s, Arrive(e)), c, stored)
  {
    var t := After(b, mode, s, Arrive(e));
    forall p | c !in t.due && p in stored.entry.built.sources && At(stored.recorded, p) != At(t.files, p)
      ensures IsQueued(t.queue, p)
    {
      ArriveKeeps(b, mode, s, e, c, stored.entry, stored.recorded, p);
    }
  }

  /** What is indexed does not escape, except the deletions a reactive registry sees. */
  lemma IndexedIsAffected(mode: Mode, s: State, e: Event, c: string, entry: Entry)
    requires IsIndexed(s, c, entry) && !(mode.Reactive? && e.kind.Deleted?) && e.path in entry.built.sources
    ensures c in Affected(mode, s, e)
  {
    assert (e.path, c) in s.index;
  }

  lemma CachedDoesNotEscape(mode: Mode, s: State, e: Event, c: string, entry: Entry, seen: Files)
    requires IsIndexed(s, c, entry) && !(mode.Reactive? && e.kind.Deleted?)
    ensures !Escapes(s, e, Affected(mode, s, e), c, seen, entry.built.sources)
  {
    if e.path in entry.built.sources { IndexedIsAffected(mode, s, e, c, entry); }
  }

  lemma ArriveInv(b: Bundling, mode: Mode, s: State, e: Event)
    requires Inv(b, s) && CanStep(b, s, Arrive(e)) && IsGuarded(mode, s, Arrive(e))
    ensures Inv(b, After(b, mode, s, Arrive(e)))
  {
    hide IsCovered, IsRecorded, IsIndexed, IsBuild, Escapes, Affected;
    var t := After(b, mode, s, Arrive(e));
    var orphans := mode.Reactive? && e.kind.Deleted?;
    forall k | k in s.mem ensures IsCovered(t, k.component, s.mem[k]) {
      if !orphans { CachedDoesNotEscape(mode, s, e, k.component, s.mem[k], s.mem[k].seen); }
      ArriveCovers(b, mode, s, e, k.component, s.mem[k]);
    }
    forall k | k in s.disk && s.disk[k].recorded != map[]
      ensures IsCovered(t, k.component, s.disk[k].entry) && IsRecorded(t, k.component, s.disk[k])
    {
      if !orphans {
        CachedDoesNotEscape(mode, s, e, k.component, s.disk[k].entry, s.disk[k].entry.seen);
        CachedDoesNotEscape(mode, s, e, k.component, s.disk[k].entry, s.disk[k].recorded);
      }
      ArriveCovers(b, mode, s, e, k.component, s.disk[k].entry);
      ArriveRecorded(b, mode, s, e, k.component, s.disk[k]);
    }
    forall id | id in s.flights ensures IsCovered(t, s.flights[id].key.component, s.flights[id].entry) {
      ArriveCovers(b, mode, s, e, s.flights[id].key.component, s.flights[id].entry);
    }
    IndexedStays(s, t);
  }

  lemma IndexedStays(s: State, t: State)
    requires s.index <= t.index
    ensures forall c: string, entry :: IsIndexed(s, c, entry) ==> IsIndexed(t, c, entry)
  {
  }

  lemma InvalidateInv(b: Bundling, mode: Mode, s: State, c: string)
    requires Inv(b, s) && CanStep(b, s, Invalidate(c)) && IsGuarded(mode, s, Invalidate(c))
    ensures Inv(b, After(b, mode, s, Invalidate(c)))
  {
    hide IsBuild, IsIndexed;
    var t := After(b, mode, s, Invalidate(c));
    assert forall d: string, entry :: d != c && IsCovered(s, d, entry) ==> IsCovered(t, d, entry);
    assert forall d: string, stored :: d != c && IsRecorded(s, d, stored) ==> IsRecorded(t, d, stored);
    forall id | id in s.flights ensures IsCovered(t, s.flights[id].key.component, s.flights[id].entry) {
      if s.flights[id].key.component == c {
        assert IsCovered(s.(due := s.due - {c}), c, s.flights[id].entry);
      }
    }
    IndexedStays(s, t);
  }

  lemma CoverIgnores(s: State, t: State)
    requires s.files == t.files && s.queue == t.queue && s.due == t.due
    ensures forall c: string, entry :: IsCovered(s, c, entry) <==> IsCovered(t, c, entry)
    ensures forall c: string, stored :: IsRecorded(s, c, stored) <==> IsRecorded(t, c, stored)
  {
  }

  lemma ReadInv(b: Bundling, mode: Mode, s: State, key: CacheKey)
    requires ReportsAll(b) && Inv(b, s) && CanStep(b, s, Read(key))
    ensures Inv(b, After(b, mode, s, Read(key)))
  {
    var t := After(b, mode, s, Read(key));
    hide IsIndexed, IsRecorded;
    CoverIgnores(s, t);
    IndexedStays(s, t);
  }

  lemma ReadDiskInv(b: Bundling, mode: Mode, s: State, key: CacheKey)
    requires Inv(b, s) && CanStep(b, s, ReadDisk(key))
    ensures Inv(b, After(b, mode, s, ReadDisk(key)))
  {
    var t := After(b, mode, s, ReadDisk(key));
    CoverIgnores(s, t);
    IndexedStays(s, t);
    hide IsIndexed, IsRecorded, IsCovered, IsBuild;
  }

  lemma RecordInv(b: Bundling, mode: Mode, s: State, id: nat)
    requires Inv(b, s) && CanStep(b, s, Record(id))
    ensures Inv(b, After(b, mode, s, Record(id)))
  {
    var t := After(b, mode, s, Record(id));
    CoverIgnores(s, t);
    IndexedStays(s, t);
    assert IsIndexed(t, s.flights[id].key.component, s.flights[id].entry);
    hide IsIndexed, IsRecorded, IsCovered, IsBuild;
  }

  /** A state that only moves entries about keeps what is known of each. */
  lemma KeptStays(b: Bundling, s: State, t: State)
    requires s.files == t.files && s.queue == t.queue && s.due == t.due && s.index <= t.index
    ensures forall c: string, entry :: IsKept(b, s, c, entry) ==> IsKept(b, t, c, entry)
    ensures forall c: string, stored :: IsFiled(b, s, c, stored) ==> IsFiled(b, t, c, stored)
    ensures forall f :: IsFlying(b, s, f) ==> IsFlying(b, t, f)
  {
    CoverIgnores(s, t);
    IndexedStays(s, t);
    hide IsBuild, IsCovered, IsRecorded, IsIndexed;
  }

  lemma StoredIsFiled(b: Bundling, s: State, f: Flight)
    requires IsFlying(b, s, f) && (f.recorded || f.fromDisk)
    ensures IsKept(b, s, f.key.component, f.entry)
    ensures IsFiled(b, s, f.key.component, Stored(f.entry, Digests(f.entry.built.sources, s.files)))
  {
  }

  lemma StoreInv(b: Bundling, mode: Mode, s: State, id: nat)
    requires Inv(b, s) && CanStep(b, s, Store(id))
    ensures Inv(b, After(b, mode, s, Store(id)))
  {
    var t := After(b, mode, s, Store(id));
    KeptStays(b, s, t);
    var f := s.flights[id];
    StoredIsFiled(b, s, f);
    hide IsKept, IsFiled, IsFlying, Digests;
    forall k | k in t.mem ensures IsKept(b, t, k.component, t.mem[k]) {
      assert k == f.key || k in s.mem;
    }
    forall k | k in t.disk ensures IsFiled(b, t, k.component, t.disk[k]) {
      assert k == f.key || k in s.disk;
    }
  }

  lemma StepInv(b: Bundling, mode: Mode, s: State, step: Step)
    requires ReportsAll(b) && Inv(b, s) && CanStep(b, s, step) && IsGuarded(mode, s, step)
    ensures Inv(b, After(b, mode, s, step))
  {
    hide Inv, After, CanStep, IsGuarded;
    match step
    case Edit(path, text) => EditInv(b, mode, s, path, text);
    case Arrive(e) => ArriveInv(b, mode, s, e);
    case Invalidate(c) => InvalidateInv(b, mode, s, c);
    case Read(key) => ReadInv(b, mode, s, key);
    case ReadDisk(key) => ReadDiskInv(b, mode, s, key);
    case Record(id) => RecordInv(b, mode, s, id);
    case Store(id) => StoreInv(b, mode, s, id);
  }

  // --------------------------------------------------------------------- whole runs

  predicate IsRun(b: Bundling, mode: Mode, s: State, steps: seq<Step>)
    decreases |steps|
  {
    steps == [] || (CanStep(b, s, steps[0]) && IsRun(b, mode, After(b, mode, s, steps[0]), steps[1..]))
  }

  function End(b: Bundling, mode: Mode, s: State, steps: seq<Step>): State
    requires IsRun(b, mode, s, steps)
    decreases |steps|
  {
    if steps == [] then s else End(b, mode, After(b, mode, s, steps[0]), steps[1..])
  }

  predicate IsGuardedRun(b: Bundling, mode: Mode, s: State, steps: seq<Step>)
    requires IsRun(b, mode, s, steps)
    decreases |steps|
  {
    steps == [] || (IsGuarded(mode, s, steps[0]) && IsGuardedRun(b, mode, After(b, mode, s, steps[0]), steps[1..]))
  }

  lemma {:induction false} RunInv(b: Bundling, mode: Mode, s: State, steps: seq<Step>)
    requires ReportsAll(b) && Inv(b, s) && IsRun(b, mode, s, steps) && IsGuardedRun(b, mode, s, steps)
    ensures Inv(b, End(b, mode, s, steps))
    decreases |steps|
  {
    hide Inv, After, CanStep, IsGuarded;
    if steps != [] {
      StepInv(b, mode, s, steps[0]);
      RunInv(b, mode, After(b, mode, s, steps[0]), steps[1..]);
    }
  }

  /**
   In every run from empty caches, once each event is handled, every render returns
   what bundling from scratch would; before that, a stale memory entry is about to
   be invalidated or has a source with an event to come.
   */
  lemma GuardedRunsAreCoherent(b: Bundling, mode: Mode, files: Files, steps: seq<Step>)
    requires ReportsAll(b) && IsRun(b, mode, Start(files), steps) && IsGuardedRun(b, mode, Start(files), steps)
    ensures var s := End(b, mode, Start(files), steps);
      && (IsQuiet(s) ==> IsCoherent(b, s))
      && (forall key :: key in s.mem && Served(b, s, key) != Scratch(b, s, key) ==>
            key.component in s.due || exists p :: p in s.mem[key].built.sources && IsQueued(s.queue, p))
  {
    hide Inv, After, CanStep, IsGuarded;
    StartInv(b, files);
    RunInv(b, mode, Start(files), steps);
    var s := End(b, mode, Start(files), steps);
    if IsQuiet(s) { QuietIsCoherent(b, s); }
    forall key | key in s.mem && Served(b, s, key) != Scratch(b, s, key)
      ensures key.component in s.due || exists p :: p in s.mem[key].built.sources && IsQueued(s.queue, p)
    {
      StaleHasPendingSource(b, s, key);
    }
  }
}

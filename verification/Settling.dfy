/**
 Exactly when events and open renders can be dealt with so that a stale bundle stays,
 under either watcher.
 */
module Settling {
  import opened Wrappers
  import opened Caches
  import opened Coherence
  import opened CoherenceLimits
  import opened Schedules

  /** Bundling differs where a file it reported does. */
  ghost predicate TellsApart(b: Bundling) {
    forall c: string, f: Files, g: Files ::
      b(c, f).Some? && b(c, g).Some? && b(c, f).value.artifact == b(c, g).value.artifact ==>
        forall p :: p in b(c, f).value.sources ==> At(f, p) == At(g, p)
  }

  /** The bundling of components that import nothing. */
  function OwnFile(): Bundling {
    (c: string, f: Files) => if c in f then Some(Built(f[c], {c})) else None
  }

  /** What is asked of bundlings here and in CoherenceLimits can be met, by this one for one. */
  lemma OwnFileMeetsAll()
    ensures ReportsAll(OwnFile()) && TellsApart(OwnFile()) && IsSensitive(OwnFile())
    ensures forall c: string, f: Files :: c in f ==> OwnFile()(c, f) == Some(Built(f[c], {c}))
  {
    var b := OwnFile();
    forall c: string, f: Files, p: string | b(c, f).Some? && p in b(c, f).value.sources
      ensures exists text :: Responds(b, c, f, p, Some(text))
    {
      var text := f[c] + " ";
      assert Responds(b, c, f, p, Some(text));
    }
    forall c: string, f: Files, g: Files
      | b(c, f).Some? && forall p :: p in b(c, f).value.sources ==> At(f, p) == At(g, p)
      ensures b(c, g) == b(c, f)
    {
      assert At(f, c) == At(g, c);
    }
  }

  /** Everything dealt with, and a bundle served that bundling from scratch would not give. */
  ghost predicate EndsStale(b: Bundling, mode: Mode, s: State, steps: seq<Step>) {
    IsRun(b, mode, s, steps) && IsQuiet(End(b, mode, s, steps)) && !IsCoherent(b, End(b, mode, s, steps))
  }

  predicate IsSettling(step: Step) {
    step.Arrive? || step.Invalidate? || step.Record? || step.Store?
  }

  predicate AreSettling(steps: seq<Step>) {
    forall i :: 0 <= i < |steps| ==> IsSettling(steps[i])
  }

  /** With no further edit and no new render, events and open renders can be dealt with so that a stale bundle stays. */
  ghost predicate CanSettleStale(b: Bundling, mode: Mode, s: State) {
    exists steps: seq<Step> :: AreSettling(steps) && EndsStale(b, mode, s, steps)
  }

  predicate AnyIsBehind(s: State) {
    exists id :: id in s.flights && IsBehind(s, s.flights[id])
  }

  predicate IsOutdated(s: State, entry: Entry) {
    exists p :: p in entry.built.sources && HasChanged(entry, s.files, p)
  }

  /** The component is to be invalidated, or one of the events to come affects it. */
  predicate IsCaught(mode: Mode, s: State, component: string) {
    component in s.due || exists e :: e in s.queue && component in Affected(mode, s, e)
  }

  /** What a render would be served from the caches, if anything. */
  predicate IsServed(s: State, key: CacheKey, entry: Entry) {
    if key in s.mem then entry == s.mem[key] else IsLive(s, key) && entry == s.disk[key].entry
  }

  predicate IsOrphaned(mode: Mode, s: State, key: CacheKey, entry: Entry) {
    IsServed(s, key, entry) && IsOutdated(s, entry) && !IsCaught(mode, s, key.component)
  }

  /** A cached bundle is out of date, and nothing that is to come affects it. */
  ghost predicate AnyIsOrphaned(mode: Mode, s: State) {
    exists key, entry :: IsOrphaned(mode, s, key, entry)
  }

  // ------------------------------------------------------------------ what can go wrong

  lemma OutdatedIsStale(b: Bundling, s: State, key: CacheKey, entry: Entry)
    requires TellsApart(b) && IsBuild(b, key.component, entry) && IsServed(s, key, entry) && IsOutdated(s, entry)
    ensures !IsCoherent(b, s)
  {
    var p :| p in entry.built.sources && HasChanged(entry, s.files, p);
    assert Served(b, s, key) == Some(entry.built.artifact);
    assert Scratch(b, s, key) != Some(entry.built.artifact);
  }

  /** An orphan stays one whatever is dealt with. */
  lemma OrphanStays(b: Bundling, mode: Mode, s: State, step: Step, key: CacheKey, entry: Entry)
    requires CanStep(b, s, step) && (step.Arrive? || step.Invalidate?) && IsOrphaned(mode, s, key, entry)
    ensures IsOrphaned(mode, After(b, mode, s, step), key, entry)
  {
    var t := After(b, mode, s, step);
    assert forall e: Event :: Affected(mode, t, e) <= Affected(mode, s, e);
    var p :| p in entry.built.sources && HasChanged(entry, s.files, p);
    assert HasChanged(entry, t.files, p);
  }

  lemma {:induction false} SettleOrphan(b: Bundling, mode: Mode, s: State, key: CacheKey, entry: Entry)
    returns (steps: seq<Step>)
    requires TellsApart(b) && IsBuild(b, key.component, entry) && IsOrphaned(mode, s, key, entry)
    ensures AreSettling(steps) && EndsStale(b, mode, s, steps)
    decreases |s.queue|, |s.due|
  {
    if s.queue != multiset{} {
      var e :| e in s.queue;
      steps := OrphanNext(b, mode, s, key, entry, Arrive(e));
    } else if s.due != {} {
      var c :| c in s.due;
      steps := OrphanNext(b, mode, s, key, entry, Invalidate(c));
    } else {
      OutdatedIsStale(b, s, key, entry);
      steps := [];
    }
  }

  lemma {:induction false} OrphanNext(b: Bundling, mode: Mode, s: State, key: CacheKey, entry: Entry, step: Step)
    returns (steps: seq<Step>)
    requires TellsApart(b) && IsBuild(b, key.component, entry) && IsOrphaned(mode, s, key, entry)
    requires CanStep(b, s, step) && (step.Arrive? || (step.Invalidate? && s.queue == multiset{}))
    ensures AreSettling(steps) && EndsStale(b, mode, s, steps)
    decreases |s.queue|, |s.due|, 0
  {
    hide IsOrphaned, IsBuild, TellsApart;
    var t := After(b, mode, s, step);
    OrphanStays(b, mode, s, step, key, entry);
    var rest := SettleOrphan(b, mode, t, key, entry);
    hide After, CanStep;
    steps := FollowedBy(b, mode, s, step, rest);
  }

  /** All events first, all invalidations next, and then the render that is behind. */
  lemma {:induction false} SettleStale(b: Bundling, mode: Mode, s: State, id: nat) returns (steps: seq<Step>)
    requires TellsApart(b) && id in s.flights && IsBehind(s, s.flights[id])
    requires IsBuild(b, s.flights[id].key.component, s.flights[id].entry)
    ensures AreSettling(steps) && EndsStale(b, mode, s, steps)
    decreases |s.queue|, |s.due|
  {
    if s.queue != multiset{} {
      var e :| e in s.queue;
      steps := SettleNext(b, mode, s, id, Arrive(e));
    } else if s.due != {} {
      var c :| c in s.due;
      steps := SettleNext(b, mode, s, id, Invalidate(c));
    } else if s.flights[id].recorded || s.flights[id].fromDisk {
      steps := StoreStale(b, mode, s, id);
    } else {
      var t := After(b, mode, s, Record(id));
      var rest := StoreStale(b, mode, t, id);
      steps := FollowedBy(b, mode, s, Record(id), rest);
    }
  }

  lemma {:induction false} SettleNext(b: Bundling, mode: Mode, s: State, id: nat, step: Step) returns (steps: seq<Step>)
    requires TellsApart(b) && id in s.flights && IsBehind(s, s.flights[id])
    requires IsBuild(b, s.flights[id].key.component, s.flights[id].entry)
    requires CanStep(b, s, step) && (step.Arrive? || (step.Invalidate? && s.queue == multiset{}))
    ensures AreSettling(steps) && EndsStale(b, mode, s, steps)
    decreases |s.queue|, |s.due|, 0
  {
    var t := After(b, mode, s, step);
    BehindStays(s, t, id);
    var rest := SettleStale(b, mode, t, id);
    steps := FollowedBy(b, mode, s, step, rest);
  }

  lemma BehindStays(s: State, t: State, id: nat)
    requires id in s.flights && IsBehind(s, s.flights[id])
    requires t.files == s.files && id in t.flights && t.flights[id].entry == s.flights[id].entry
    ensures IsBehind(t, t.flights[id])
  {
    var path :| path in s.flights[id].entry.built.sources && HasOlder(s, s.flights[id], path);
    assert HasOlder(t, t.flights[id], path);
  }

  lemma StoreStale(b: Bundling, mode: Mode, s: State, id: nat) returns (steps: seq<Step>)
    requires TellsApart(b) && IsQuiet(s) && id in s.flights && IsBehind(s, s.flights[id])
    requires IsBuild(b, s.flights[id].key.component, s.flights[id].entry)
    requires s.flights[id].recorded || s.flights[id].fromDisk
    ensures steps == [Store(id)] && AreSettling(steps) && EndsStale(b, mode, s, steps)
  {
    var f := s.flights[id];
    var t := After(b, mode, s, Store(id));
    var path :| path in f.entry.built.sources && HasOlder(s, f, path);
    assert HasChanged(f.entry, t.files, path);
    OutdatedIsStale(b, t, f.key, f.entry);
    hide After, CanStep;
    RunStep(b, mode, s, Store(id), []);
    steps := [Store(id)];
    assert steps == [Store(id)] + [];
  }

  // ----------------------------------------------------------- and nothing else can

  predicate IsSafe(b: Bundling, mode: Mode, s: State, component: string, entry: Entry) {
    IsBuild(b, component, entry) && (IsOutdated(s, entry) ==> IsCaught(mode, s, component))
  }

  /** All that is out of date is caught, and no open render is behind. */
  predicate IsSound(b: Bundling, mode: Mode, s: State) {
    && (forall k :: k in s.mem ==> IsSafe(b, mode, s, k.component, s.mem[k]))
    && (forall k :: k in s.disk && k !in s.mem && IsLive(s, k) ==> IsSafe(b, mode, s, k.component, s.disk[k].entry))
    && (forall id :: id in s.flights ==>
          IsBuild(b, s.flights[id].key.component, s.flights[id].entry) && !IsBehind(s, s.flights[id]))
  }

  lemma StartsSound(b: Bundling, mode: Mode, s: State)
    requires Inv(b, s) && !AnyIsBehind(s) && !AnyIsOrphaned(mode, s)
    ensures IsSound(b, mode, s)
  {
    hide IsCaught, IsOutdated, IsBehind, IsBuild;
    forall k | k in s.mem ensures IsSafe(b, mode, s, k.component, s.mem[k]) {
      assert !IsOrphaned(mode, s, k, s.mem[k]);
    }
    forall k | k in s.disk && k !in s.mem && IsLive(s, k) ensures IsSafe(b, mode, s, k.component, s.disk[k].entry) {
      assert IsFiled(b, s, k.component, s.disk[k]);
      assert !IsOrphaned(mode, s, k, s.disk[k].entry);
    }
  }

  /** What catches a cached bundle still does after another step, unless it was this one's to drop. */
  lemma CaughtStays(b: Bundling, mode: Mode, s: State, step: Step, key: CacheKey)
    requires CanStep(b, s, step) && IsSettling(step) && IsCaught(mode, s, key.component)
    requires (key in s.mem && key in After(b, mode, s, step).mem) || (key in s.disk && key in After(b, mode, s, step).disk)
    ensures IsCaught(mode, After(b, mode, s, step), key.component)
  {
    var c, t := key.component, After(b, mode, s, step);
    if c !in s.due {
      var e :| e in s.queue && c in Affected(mode, s, e);
      AffectedStays(b, mode, s, step, key, e);
      if !(step.Arrive? && step.event == e) { assert e in t.queue; }
    }
  }

  lemma AffectedStays(b: Bundling, mode: Mode, s: State, step: Step, key: CacheKey, e: Event)
    requires CanStep(b, s, step) && IsSettling(step) && key.component in Affected(mode, s, e)
    requires (key in s.mem && key in After(b, mode, s, step).mem) || (key in s.disk && key in After(b, mode, s, step).disk)
    ensures key.component in Affected(mode, After(b, mode, s, step), e)
  {
    var c, t := key.component, After(b, mode, s, step);
    assert s.index <= t.index;
    assert (e.path, c) in s.index ==> c in Dependents(t.index, e.path);
    assert c in Dependents(s.index, e.path) ==> (e.path, c) in s.index;
  }

  lemma SameOutdated(s: State, t: State, entry: Entry)
    requires s.files == t.files
    ensures IsOutdated(s, entry) <==> IsOutdated(t, entry)
  {
  }

  lemma SettlingSound(b: Bundling, mode: Mode, s: State, step: Step)
    requires IsSound(b, mode, s) && CanStep(b, s, step) && IsSettling(step)
    ensures IsSound(b, mode, After(b, mode, s, step))
  {
    MemStaysSound(b, mode, s, step);
    DiskStaysSound(b, mode, s, step);
    FlightsStayCurrent(b, mode, s, step);
    hide After, IsSafe, IsLive, IsBehind, IsBuild;
  }

  lemma MemStaysSound(b: Bundling, mode: Mode, s: State, step: Step)
    requires IsSound(b, mode, s) && CanStep(b, s, step) && IsSettling(step)
    ensures var t := After(b, mode, s, step); forall k :: k in t.mem ==> IsSafe(b, mode, t, k.component, t.mem[k])
  {
    hide IsBuild, Affected;
    var t := After(b, mode, s, step);
    assert t.files == s.files;
    forall k | k in t.mem ensures IsSafe(b, mode, t, k.component, t.mem[k]) {
      SameOutdated(s, t, t.mem[k]);
      if step.Store? && k == s.flights[step.id].key {
        FlightIsCurrent(s, s.flights[step.id]);
      } else if IsCaught(mode, s, k.component) {
        CaughtStays(b, mode, s, step, k);
      }
    }
  }

  lemma DiskStaysSound(b: Bundling, mode: Mode, s: State, step: Step)
    requires IsSound(b, mode, s) && CanStep(b, s, step) && IsSettling(step)
    ensures var t := After(b, mode, s, step);
      forall k :: k in t.disk && k !in t.mem && IsLive(t, k) ==> IsSafe(b, mode, t, k.component, t.disk[k].entry)
  {
    hide IsBuild, Affected;
    var t := After(b, mode, s, step);
    assert t.files == s.files;
    forall k | k in t.disk && k !in t.mem && IsLive(t, k) ensures IsSafe(b, mode, t, k.component, t.disk[k].entry) {
      SameOutdated(s, t, t.disk[k].entry);
      assert k in s.disk && t.disk[k] == s.disk[k] && k !in s.mem;
      if IsCaught(mode, s, k.component) { CaughtStays(b, mode, s, step, k); }
    }
  }

  lemma FlightsStayCurrent(b: Bundling, mode: Mode, s: State, step: Step)
    requires IsSound(b, mode, s) && CanStep(b, s, step) && IsSettling(step)
    ensures var t := After(b, mode, s, step);
      forall id :: id in t.flights ==>
        IsBuild(b, t.flights[id].key.component, t.flights[id].entry) && !IsBehind(t, t.flights[id])
  {
    hide IsBuild, Affected;
    var t := After(b, mode, s, step);
    assert t.files == s.files;
    forall id | id in t.flights ensures !IsBehind(t, t.flights[id]) {
      FlightIsCurrent(s, s.flights[id]);
      assert forall p :: p in t.flights[id].entry.built.sources ==> !HasChanged(t.flights[id].entry, t.files, p);
    }
  }

  lemma FlightIsCurrent(s: State, f: Flight)
    requires !IsBehind(s, f)
    ensures !IsOutdated(s, f.entry)
    ensures forall p :: p in f.entry.built.sources ==> !HasChanged(f.entry, s.files, p)
  {
    forall p | p in f.entry.built.sources ensures !HasChanged(f.entry, s.files, p) {
      assert !HasOlder(s, f, p);
    }
  }

  lemma {:induction false} SettledSound(b: Bundling, mode: Mode, s: State, steps: seq<Step>)
    requires IsSound(b, mode, s) && AreSettling(steps) && IsRun(b, mode, s, steps)
    ensures IsSound(b, mode, End(b, mode, s, steps))
    decreases |steps|
  {
    hide IsSound, After, CanStep, IsSettling;
    if steps != [] {
      assert IsSettling(steps[0]);
      SettlingSound(b, mode, s, steps[0]);
      SettledSound(b, mode, After(b, mode, s, steps[0]), steps[1..]);
    }
  }

  lemma SoundIsCoherent(b: Bundling, mode: Mode, s: State)
    requires ReportsAll(b) && IsSound(b, mode, s) && IsQuiet(s)
    ensures IsCoherent(b, s)
  {
    assert forall c :: !IsCaught(mode, s, c);
    forall key: CacheKey ensures Served(b, s, key) == Scratch(b, s, key) {
      if key in s.mem {
        EntryIsFresh(b, s, key.component, s.mem[key]);
      } else if IsLive(s, key) {
        EntryIsFresh(b, s, key.component, s.disk[key].entry);
      }
    }
  }

  /**
   What is open and to come can leave something stale exactly when an open render holds
   an older text of a file it reported, or a cached bundle is out of date that neither
   an invalidation due nor an event to come affects.
   */
  lemma StaleIff(b: Bundling, mode: Mode, s: State)
    requires ReportsAll(b) && TellsApart(b) && Inv(b, s)
    ensures CanSettleStale(b, mode, s) <==> AnyIsBehind(s) || AnyIsOrphaned(mode, s)
  {
    if AnyIsBehind(s) {
      var id :| id in s.flights && IsBehind(s, s.flights[id]);
      var steps := SettleStale(b, mode, s, id);
    } else if AnyIsOrphaned(mode, s) {
      var key, entry :| IsOrphaned(mode, s, key, entry);
      ServedIsBuild(b, s, key, entry);
      var steps := SettleOrphan(b, mode, s, key, entry);
    } else if CanSettleStale(b, mode, s) {
      var steps: seq<Step> :| AreSettling(steps) && EndsStale(b, mode, s, steps);
      StartsSound(b, mode, s);
      SettledSound(b, mode, s, steps);
      SoundIsCoherent(b, mode, End(b, mode, s, steps));
    }
  }

  lemma ServedIsBuild(b: Bundling, s: State, key: CacheKey, entry: Entry)
    requires Inv(b, s) && IsServed(s, key, entry)
    ensures IsBuild(b, key.component, entry)
  {
    if key !in s.mem { assert IsFiled(b, s, key.component, s.disk[key]); }
  }

  /** Under the watcher for reloads nothing recorded is ever orphaned: only open renders can go wrong. */
  lemma HmrOrphansNone(b: Bundling, s: State)
    requires Inv(b, s)
    ensures !AnyIsOrphaned(Hmr, s)
  {
    forall key, entry ensures !IsOrphaned(Hmr, s, key, entry) {
      if IsServed(s, key, entry) && IsOutdated(s, entry) {
        if key !in s.mem { assert IsFiled(b, s, key.component, s.disk[key]); }
        assert IsKept(b, s, key.component, entry);
        var p :| p in entry.built.sources && HasChanged(entry, s.files, p);
        if key.component !in s.due {
          var e :| e in s.queue && e.path == p;
          assert (p, key.component) in s.index;
          assert key.component in Affected(Hmr, s, e);
        }
      }
    }
  }

  /** A process in which one render is open that is recorded. */
  function Recorded(files: Files, key: CacheKey, entry: Entry, queue: multiset<Event>, due: set<string>): State {
    State(files, queue, due, map[], map[], set p | p in entry.built.sources :: (p, key.component),
          map[0 := Flight(key, entry, false, true)], 1)
  }

  /** From a fresh process: a render is opened, one of its sources edited, and the render recorded. */
  lemma OpenedThenRecorded(b: Bundling, files: Files, key: CacheKey, path: string, text: Option<string>, rest: seq<Step>)
    returns (steps: seq<Step>)
    requires b(key.component, files).Some? && (text.Some? || path in files)
    requires EndsStale(b, Hmr, Recorded(Put(files, path, text), key, Entry(b(key.component, files).value, files),
                                   multiset{Event(path, KindOf(files, path, text))}, {}), rest)
    ensures steps == [Read(key), Edit(path, text), Record(0)] + rest && EndsStale(b, Hmr, Start(files), steps)
  {
    hide EndsStale, KindOf;
    var entry := Entry(b(key.component, files).value, files);
    var s1 := After(b, Hmr, Start(files), Read(key));
    var s2 := After(b, Hmr, s1, Edit(path, text));
    var s3 := After(b, Hmr, s2, Record(0));
    var event := Event(path, KindOf(files, path, text));
    assert s2.queue == multiset{event};
    assert s3.index == Recorded(files, key, entry, multiset{}, {}).index;
    assert s3 == Recorded(Put(files, path, text), key, entry, multiset{event}, {});
    steps := FollowedBy(b, Hmr, s2, Record(0), rest);
    steps := FollowedBy(b, Hmr, s1, Edit(path, text), steps);
    steps := FollowedBy(b, Hmr, Start(files), Read(key), steps);
  }

  /**
   Recording in time is not enough: an event seen once the render is recorded, and its
   component invalidated before the render stores, leaves the older text there for good.
   */
  lemma LateStoreServesStale(b: Bundling, files: Files, key: CacheKey, path: string, text: Option<string>)
    returns (steps: seq<Step>)
    requires TellsApart(b) && (text.Some? || path in files) && At(files, path) != At(Put(files, path, text), path)
    requires b(key.component, files).Some? && path in b(key.component, files).value.sources
    ensures steps == [Read(key), Edit(path, text), Record(0), Arrive(Event(path, KindOf(files, path, text))),
                      Invalidate(key.component), Store(0)]
    ensures EndsStale(b, Hmr, Start(files), steps)
  {
    hide EndsStale, KindOf;
    var event, entry := Event(path, KindOf(files, path, text)), Entry(b(key.component, files).value, files);
    var now := Put(files, path, text);
    var s3 := Recorded(now, key, entry, multiset{event}, {});
    var s4 := Recorded(now, key, entry, multiset{}, {key.component});
    var s5 := Recorded(now, key, entry, multiset{}, {});
    assert HasOlder(s5, s5.flights[0], path);
    steps := StoreStale(b, Hmr, s5, 0);
    assert After(b, Hmr, s4, Invalidate(key.component)) == s5;
    steps := FollowedBy(b, Hmr, s4, Invalidate(key.component), steps);
    assert (path, key.component) in s3.index;
    assert Dependents(s3.index, path) == {key.component};
    assert After(b, Hmr, s3, Arrive(event)) == s4;
    steps := FollowedBy(b, Hmr, s3, Arrive(event), steps);
    steps := OpenedThenRecorded(b, files, key, path, text, steps);
  }

  lemma FollowedBy(b: Bundling, mode: Mode, s: State, step: Step, rest: seq<Step>) returns (steps: seq<Step>)
    requires CanStep(b, s, step) && EndsStale(b, mode, After(b, mode, s, step), rest)
    ensures steps == [step] + rest && EndsStale(b, mode, s, steps)
    ensures AreSettling(rest) && IsSettling(step) ==> AreSettling(steps)
  {
    hide CanStep, After, IsCoherent;
    RunStep(b, mode, s, step, rest);
    steps := [step] + rest;
  }
}

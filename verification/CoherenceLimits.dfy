/**
 Where bundle caches stop being coherent: exactly which steps break the invariant,
 and the runs that end with a stale bundle being served.
 */
module CoherenceLimits {
  import opened Wrappers
  import opened Caches
  import opened Coherence

  lemma EscapeBreaks(b: Bundling, mode: Mode, s: State, e: Event, c: string, seen: Files, entry: Entry)
    requires CanStep(b, s, Arrive(e))
    requires Escapes(s, e, Affected(mode, s, e), c, seen, entry.built.sources)
    ensures var t := After(b, mode, s, Arrive(e));
      c !in t.due && e.path in entry.built.sources && At(seen, e.path) != At(t.files, e.path) &&
      !IsQueued(t.queue, e.path)
  {
  }

  /** The guard is exactly what keeps the invariant. */
  lemma GuardIff(b: Bundling, mode: Mode, s: State, step: Step)
    requires ReportsAll(b) && Inv(b, s) && CanStep(b, s, step)
    ensures Inv(b, After(b, mode, s, step)) <==> IsGuarded(mode, s, step)
  {
    hide Affected, Escapes;
    var t := After(b, mode, s, step);
    if IsGuarded(mode, s, step) {
      StepInv(b, mode, s, step);
    } else if step.Arrive? {
      ArriveUnguarded(b, mode, s, step.event);
    } else {
      var id :| id in s.flights && s.flights[id].key.component == step.component &&
        !IsCovered(s.(due := s.due - {step.component}), step.component, s.flights[id].entry);
      CoverIgnores(s.(due := s.due - {step.component}), t);
      assert !IsFlying(b, t, t.flights[id]);
    }
  }

  lemma ArriveUnguarded(b: Bundling, mode: Mode, s: State, e: Event)
    requires CanStep(b, s, Arrive(e)) && !IsGuarded(mode, s, Arrive(e))
    ensures !Inv(b, After(b, mode, s, Arrive(e)))
  {
    hide Affected, Escapes, IsIndexed, IsBuild;
    var t := After(b, mode, s, Arrive(e));
    var affected := Affected(mode, s, e);
    if id :| id in s.flights && Escapes(s, e, affected, s.flights[id].key.component, s.flights[id].entry.seen,
                                        s.flights[id].entry.built.sources) {
      var f := s.flights[id];
      EscapeBreaks(b, mode, s, e, f.key.component, f.entry.seen, f.entry);
      assert !IsFlying(b, t, t.flights[id]);
    } else if k :| k in s.mem && Escapes(s, e, affected, k.component, s.mem[k].seen, s.mem[k].built.sources) {
      EscapeBreaks(b, mode, s, e, k.component, s.mem[k].seen, s.mem[k]);
      assert !IsKept(b, t, k.component, t.mem[k]);
    } else {
      var k :| k in s.disk && s.disk[k].recorded != map[] &&
        (Escapes(s, e, affected, k.component, s.disk[k].entry.seen, s.disk[k].entry.built.sources) ||
         Escapes(s, e, affected, k.component, s.disk[k].recorded, s.disk[k].entry.built.sources));
      var entry := s.disk[k].entry;
      if Escapes(s, e, affected, k.component, entry.seen, entry.built.sources) {
        EscapeBreaks(b, mode, s, e, k.component, entry.seen, entry);
      } else {
        EscapeBreaks(b, mode, s, e, k.component, s.disk[k].recorded, entry);
      }
      assert !IsFiled(b, t, k.component, t.disk[k]);
    }
  }

  // ------------------------------------------------------------ where it serves stale

  /** Editing the file makes bundling the component come out differently. */
  predicate Responds(b: Bundling, component: string, files: Files, path: string, text: Option<string>) {
    b(component, files).Some? &&
    (b(component, Put(files, path, text)).Some? ==>
      b(component, Put(files, path, text)).value.artifact != b(component, files).value.artifact)
  }

  lemma RunStep(b: Bundling, mode: Mode, s: State, step: Step, rest: seq<Step>)
    requires CanStep(b, s, step) && IsRun(b, mode, After(b, mode, s, step), rest)
    ensures IsRun(b, mode, s, [step] + rest)
    ensures End(b, mode, s, [step] + rest) == End(b, mode, After(b, mode, s, step), rest)
    ensures IsGuardedRun(b, mode, s, [step] + rest) <==>
      IsGuarded(mode, s, step) && IsGuardedRun(b, mode, After(b, mode, s, step), rest)
  {
    assert ([step] + rest)[1..] == rest;
  }

  lemma StaleIsIncoherent(b: Bundling, s: State, key: CacheKey)
    requires key in s.mem && Scratch(b, s, key) != Some(s.mem[key].built.artifact)
    ensures !IsCoherent(b, s)
  {
    assert Served(b, s, key) != Scratch(b, s, key);
  }

  /**
   The race the guard shuts out: an edit whose event is seen while a render that
   read the file before it has stored nothing yet. The render then stores, and
   serves, what is stale for good.
   */
  lemma RaceServesStale(b: Bundling, files: Files, key: CacheKey, path: string, text: Option<string>)
    returns (steps: seq<Step>)
    requires Responds(b, key.component, files, path, text) && (text.Some? || path in files)
    ensures IsRun(b, Hmr, Start(files), steps)
    ensures IsQuiet(End(b, Hmr, Start(files), steps)) && !IsCoherent(b, End(b, Hmr, Start(files), steps))
  {
    var event := Event(path, KindOf(files, path, text));
    var s0 := Start(files);
    var entry := Entry(b(key.component, files).value, files);
    var s1 := After(b, Hmr, s0, Read(key));
    var s3 := Unseen(Put(files, path, text), map[], map[0 := Flight(key, entry, false, false)]);
    UnseenEdit(b, s1, path, text, s3);
    var s4 := After(b, Hmr, s3, Record(0));
    StaleIsIncoherent(b, After(b, Hmr, s4, Store(0)), key);
    hide After, CanStep;
    RunStep(b, Hmr, s4, Store(0), []);
    RunStep(b, Hmr, s3, Record(0), [Store(0)]);
    var s2 := After(b, Hmr, s1, Edit(path, text));
    RunStep(b, Hmr, s2, Arrive(event), [Record(0)] + [Store(0)]);
    RunStep(b, Hmr, s1, Edit(path, text), [Arrive(event)] + ([Record(0)] + [Store(0)]));
    RunStep(b, Hmr, s0, Read(key), [Edit(path, text)] + ([Arrive(event)] + ([Record(0)] + [Store(0)])));
    steps := [Read(key)] + ([Edit(path, text)] + ([Arrive(event)] + ([Record(0)] + [Store(0)])));
  }

  /** A quiet state of a process that has recorded nothing yet. */
  function Unseen(files: Files, disk: map<CacheKey, Stored>, flights: map<nat, Flight>): State {
    State(files, multiset{}, {}, map[], disk, {}, flights, 1)
  }

  /** Nothing indexed, so an edit and its event change the files alone. */
  lemma UnseenEdit(b: Bundling, s: State, path: string, text: Option<string>, t: State)
    requires s.queue == multiset{} && s.due == {} && s.index == {} && (text.Some? || path in s.files)
    requires t == s.(files := Put(s.files, path, text))
    ensures var event := Event(path, KindOf(s.files, path, text));
      && CanStep(b, s, Edit(path, text))
      && CanStep(b, After(b, Hmr, s, Edit(path, text)), Arrive(event))
      && After(b, Hmr, After(b, Hmr, s, Edit(path, text)), Arrive(event)) == t
      && (s.flights == map[] ==> IsGuarded(Hmr, After(b, Hmr, s, Edit(path, text)), Arrive(event)))
  {
    assert multiset{} + multiset{Event(path, KindOf(s.files, path, text))}
         - multiset{Event(path, KindOf(s.files, path, text))} == multiset{};
    assert Dependents(s.index, path) == {};
  }

  /** What a deletion leaves when a reactive registry has dealt with it. */
  function AfterDeletion(s: State, nameFor: map<string, string>, path: string): State {
    var mem := if path in nameFor then map k | k in s.mem && k.component != nameFor[path] :: s.mem[k] else s.mem;
    var disk := if path in nameFor then map k | k in s.disk && k.component != nameFor[path] :: s.disk[k] else s.disk;
    s.(files := s.files - {path}, mem := mem, disk := disk)
  }

  /** A file is deleted, its event seen, and its own component invalidated if it is known to have one. */
  function DeletionSteps(nameFor: map<string, string>, path: string): seq<Step> {
    [Edit(path, None)] + ([Arrive(Event(path, Deleted))] + if path in nameFor then [Invalidate(nameFor[path])] else [])
  }

  lemma DeletionRuns(b: Bundling, nameFor: map<string, string>, s: State, path: string)
    requires IsQuiet(s) && path in s.files
    ensures IsRun(b, Reactive(nameFor), s, DeletionSteps(nameFor, path))
    ensures End(b, Reactive(nameFor), s, DeletionSteps(nameFor, path)) == AfterDeletion(s, nameFor, path)
  {
    var mode := Reactive(nameFor);
    var event := Event(path, Deleted);
    var s1 := After(b, mode, s, Edit(path, None));
    var s2 := After(b, mode, s1, Arrive(event));
    assert s2.queue == multiset{};
    var last := if path in nameFor then [Invalidate(nameFor[path])] else [];
    if path in nameFor {
      var s3 := After(b, mode, s2, Invalidate(nameFor[path]));
      assert s3.due == {};
      assert s3 == AfterDeletion(s, nameFor, path);
      RunStep(b, mode, s2, Invalidate(nameFor[path]), []);
      assert last == [Invalidate(nameFor[path])] + [];
    } else {
      assert s2 == AfterDeletion(s, nameFor, path);
    }
    RunStep(b, mode, s1, Arrive(event), last);
    RunStep(b, mode, s, Edit(path, None), [Arrive(event)] + last);
  }

  /**
   With a reactive registry and no HMR, the run that deletes a file and deals with it
   ends quiet, and leaves a cached bundle right exactly when the bundle had not read the
   file, or is of the file's own component: no other that read it is ever invalidated.
   */
  lemma DeletionIff(b: Bundling, nameFor: map<string, string>, s: State, path: string, key: CacheKey)
    requires ReportsAll(b) && Inv(b, s) && IsQuiet(s) && path in s.files && key in s.mem
    requires path in s.mem[key].built.sources ==> Responds(b, key.component, s.files, path, None)
    ensures IsRun(b, Reactive(nameFor), s, DeletionSteps(nameFor, path))
    ensures var t := End(b, Reactive(nameFor), s, DeletionSteps(nameFor, path));
      && IsQuiet(t)
      && ((key in t.mem ==> Served(b, t, key) == Scratch(b, t, key)) <==>
          path !in s.mem[key].built.sources || (path in nameFor && nameFor[path] == key.component))
  {
    DeletionRuns(b, nameFor, s, path);
    hide IsRun, End, DeletionSteps;
    var t := AfterDeletion(s, nameFor, path);
    EntryIsFresh(b, s, key.component, s.mem[key]);
    if path !in s.mem[key].built.sources { EntryIsFresh(b, t, key.component, s.mem[key]); }
  }

  /** A process that has rendered one component. */
  function Rendered(b: Bundling, files: Files, key: CacheKey): State
    requires b(key.component, files).Some?
  {
    var built := b(key.component, files).value;
    var entry := Entry(built, files);
    State(files, multiset{}, {}, map[key := entry], map[key := Stored(entry, Digests(built.sources, files))],
          set p | p in built.sources :: (p, key.component), map[], 1)
  }

  lemma RenderRuns(b: Bundling, mode: Mode, files: Files, key: CacheKey)
    requires b(key.component, files).Some?
    ensures var steps := [Read(key)] + ([Record(0)] + ([Store(0)] + []));
      IsRun(b, mode, Start(files), steps) && End(b, mode, Start(files), steps) == Rendered(b, files, key)
  {
    var entry := Entry(b(key.component, files).value, files);
    var s1 := After(b, mode, Start(files), Read(key));
    var s2 := After(b, mode, s1, Record(0));
    assert s2.flights == map[0 := Flight(key, entry, false, true)];
    var s3 := After(b, mode, s2, Store(0));
    assert s3.flights == map[] && s2.index == Rendered(b, files, key).index;
    assert s3 == Rendered(b, files, key);
    hide After, CanStep;
    RunStep(b, mode, s2, Store(0), []);
    RunStep(b, mode, s1, Record(0), [Store(0)] + []);
    RunStep(b, mode, Start(files), Read(key), [Record(0)] + ([Store(0)] + []));
  }

  lemma {:induction false} RunsJoin(b: Bundling, mode: Mode, s: State, first: seq<Step>, rest: seq<Step>)
    requires IsRun(b, mode, s, first) && IsRun(b, mode, End(b, mode, s, first), rest)
    ensures IsRun(b, mode, s, first + rest)
    ensures End(b, mode, s, first + rest) == End(b, mode, End(b, mode, s, first), rest)
    decreases |first|
  {
    hide After, CanStep;
    if first == [] {
      assert first + rest == rest;
    } else {
      assert (first + rest)[1..] == first[1..] + rest;
      RunsJoin(b, mode, After(b, mode, s, first[0]), first[1..], rest);
    }
  }

  /**
   For every component and every source of it that is not its own file: rendered once,
   and the source deleted, a reactive registry alone leaves the stale bundle there.
   */
  lemma DeletionServesStale(b: Bundling, nameFor: map<string, string>, files: Files, key: CacheKey, path: string)
    returns (steps: seq<Step>)
    requires Responds(b, key.component, files, path, None) && path in files
    requires path in nameFor ==> nameFor[path] != key.component
    ensures steps == ([Read(key)] + ([Record(0)] + ([Store(0)] + []))) + DeletionSteps(nameFor, path)
    ensures var mode := Reactive(nameFor);
      IsRun(b, mode, Start(files), steps) &&
      IsQuiet(End(b, mode, Start(files), steps)) && !IsCoherent(b, End(b, mode, Start(files), steps))
  {
    var mode, s := Reactive(nameFor), Rendered(b, files, key);
    var first := [Read(key)] + ([Record(0)] + ([Store(0)] + []));
    RenderRuns(b, mode, files, key);
    DeletionRuns(b, nameFor, s, path);
    hide IsRun, End, DeletionSteps;
    RunsJoin(b, mode, Start(files), first, DeletionSteps(nameFor, path));
    var t := AfterDeletion(s, nameFor, path);
    StaleIsIncoherent(b, t, key);
    steps := first + DeletionSteps(nameFor, path);
  }

  lemma QuietEntryIsFresh(b: Bundling, s: State, key: CacheKey)
    requires ReportsAll(b) && Inv(b, s) && IsQuiet(s) && key in s.disk && s.disk[key].recorded != map[]
    ensures b(key.component, s.files) == Some(s.disk[key].entry.built)
    ensures s.disk[key].recorded.Keys <= s.disk[key].entry.built.sources
  {
    assert IsFiled(b, s, key.component, s.disk[key]);
    EntryIsFresh(b, s, key.component, s.disk[key].entry);
  }

  /** Promoting an entry records nothing: an edit after it invalidates nothing. */
  lemma RestartServesStale(b: Bundling, s: State, key: CacheKey, path: string, text: string) returns (steps: seq<Step>)
    requires ReportsAll(b) && Inv(b, s) && IsQuiet(s) && key in s.disk
    requires path in s.disk[key].recorded && Responds(b, key.component, s.files, path, Some(text))
    ensures IsRun(b, Hmr, Restart(s), steps) && IsGuardedRun(b, Hmr, Restart(s), steps)
    ensures IsQuiet(End(b, Hmr, Restart(s), steps)) && !IsCoherent(b, End(b, Hmr, Restart(s), steps))
  {
    QuietEntryIsFresh(b, s, key);
    PromoteUnseen(b, s, key);
    hide Inv, ReportsAll, IsLive, Restart, After, CanStep, IsGuarded, IsRun, End, IsGuardedRun;
    var s2 := Unseen(s.files, s.disk, map[]).(mem := map[key := s.disk[key].entry]);
    var tail := EditUnseen(b, s2, key, path, Some(text));
    var s1 := After(b, Hmr, Restart(s), ReadDisk(key));
    RunStep(b, Hmr, s1, Store(0), tail);
    RunStep(b, Hmr, Restart(s), ReadDisk(key), [Store(0)] + tail);
    steps := [ReadDisk(key)] + ([Store(0)] + tail);
  }

  /** Nothing is indexed: editing a source of what is in memory leaves it there. */
  lemma EditUnseen(b: Bundling, s: State, key: CacheKey, path: string, text: Option<string>) returns (steps: seq<Step>)
    requires s.queue == multiset{} && s.due == {} && s.index == {} && s.flights == map[]
    requires key in s.mem && b(key.component, s.files) == Some(s.mem[key].built)
    requires Responds(b, key.component, s.files, path, text) && (text.Some? || path in s.files)
    ensures IsRun(b, Hmr, s, steps) && IsGuardedRun(b, Hmr, s, steps)
    ensures IsQuiet(End(b, Hmr, s, steps)) && !IsCoherent(b, End(b, Hmr, s, steps))
  {
    var event := Event(path, KindOf(s.files, path, text));
    var t := s.(files := Put(s.files, path, text));
    UnseenEdit(b, s, path, text, t);
    StaleIsIncoherent(b, t, key);
    hide After, CanStep, IsGuarded;
    RunStep(b, Hmr, After(b, Hmr, s, Edit(path, text)), Arrive(event), []);
    RunStep(b, Hmr, s, Edit(path, text), [Arrive(event)]);
    steps := [Edit(path, text)] + [Arrive(event)];
  }

  /** Promoting from disk leaves memory with the entry, and the index with nothing. */
  lemma PromoteUnseen(b: Bundling, s: State, key: CacheKey)
    requires key in s.disk && IsLive(Restart(s), key)
    ensures CanStep(b, Restart(s), ReadDisk(key)) && CanStep(b, After(b, Hmr, Restart(s), ReadDisk(key)), Store(0))
    ensures IsGuarded(Hmr, Restart(s), ReadDisk(key))
    ensures IsGuarded(Hmr, After(b, Hmr, Restart(s), ReadDisk(key)), Store(0))
    ensures After(b, Hmr, After(b, Hmr, Restart(s), ReadDisk(key)), Store(0))
         == Unseen(s.files, s.disk, map[]).(mem := map[key := s.disk[key].entry])
  {
  }

  /** Every file a bundle reports has some text that would change it. */
  ghost predicate IsSensitive(b: Bundling) {
    forall c: string, f: Files, p: string ::
      b(c, f).Some? && p in b(c, f).value.sources ==> exists text :: Responds(b, c, f, p, Some(text))
  }

  /** All guarded runs over a restarted state end coherent when quiet. */
  ghost predicate RunsStayCoherent(b: Bundling, s: State) {
    forall steps: seq<Step> ::
      IsRun(b, Hmr, s, steps) && IsGuardedRun(b, Hmr, s, steps) && IsQuiet(End(b, Hmr, s, steps)) ==>
        IsCoherent(b, End(b, Hmr, s, steps))
  }

  lemma UnrecordedRestart(b: Bundling, s: State)
    requires Inv(b, s) && forall k :: k in s.disk ==> s.disk[k].recorded == map[]
    ensures Inv(b, Restart(s))
  {
    forall k | k in s.disk ensures IsFiled(b, Restart(s), k.component, s.disk[k]) {
      assert IsFiled(b, s, k.component, s.disk[k]);
    }
  }

  /** A restart is safe exactly when no entry left on disk recorded a source: none that could be served. */
  lemma RestartIff(b: Bundling, s: State)
    requires ReportsAll(b) && IsSensitive(b) && Inv(b, s) && IsQuiet(s)
    ensures RunsStayCoherent(b, Restart(s)) <==> forall k :: k in s.disk ==> s.disk[k].recorded == map[]
  {
    if forall k :: k in s.disk ==> s.disk[k].recorded == map[] {
      UnrecordedRestart(b, s);
      hide End, IsRun, IsGuardedRun, Inv;
      forall steps: seq<Step> | IsRun(b, Hmr, Restart(s), steps) && IsGuardedRun(b, Hmr, Restart(s), steps) &&
                                IsQuiet(End(b, Hmr, Restart(s), steps))
        ensures IsCoherent(b, End(b, Hmr, Restart(s), steps))
      {
        RunInv(b, Hmr, Restart(s), steps);
        QuietIsCoherent(b, End(b, Hmr, Restart(s), steps));
      }
    } else {
      var k :| k in s.disk && s.disk[k].recorded != map[];
      var p :| p in s.disk[k].recorded;
      QuietEntryIsFresh(b, s, k);
      var text :| Responds(b, k.component, s.files, p, Some(text));
      var steps := RestartServesStale(b, s, k, p, text);
    }
  }
}

/**
 Which interleavings of renders, events and invalidations are safe, said of the
 renders that are open: none may hold a text older than what an event or an
 invalidation is about. And exactly when what is open can leave something stale.
 */
module Schedules {
  import opened Wrappers
  import opened Caches
  import opened Coherence

  /** The render has read an older text of the file than the one there now. */
  predicate HasOlder(s: State, f: Flight, path: string) {
    path in f.entry.built.sources && HasChanged(f.entry, s.files, path)
  }

  predicate IsBehind(s: State, f: Flight) {
    exists path :: path in f.entry.built.sources && HasOlder(s, f, path)
  }

  /** A reactive registry drops only the deleted file's own component. */
  predicate IsOwn(mode: Mode, path: string, component: string) {
    mode.Reactive? && path in mode.nameFor && mode.nameFor[path] == component
  }

  /** Nothing but the file's own component has reported it. */
  predicate IsUnshared(mode: Mode, s: State, path: string) {
    && (forall k :: k in s.mem && path in s.mem[k].built.sources ==> IsOwn(mode, path, k.component))
    && (forall k :: k in s.disk && path in s.disk[k].entry.built.sources ==> IsOwn(mode, path, k.component))
    && (forall id :: id in s.flights && path in s.flights[id].entry.built.sources ==>
          IsOwn(mode, path, s.flights[id].key.component))
  }

  /**
   No event is seen while a render that is still to be recorded holds an older text
   of its file; no component is invalidated while a render of it holds an older text
   of any; and a reactive registry sees no deletion of a file another component read.
   */
  predicate IsApart(mode: Mode, s: State, step: Step) {
    match step
    case Arrive(e) =>
      && (forall id :: id in s.flights && HasOlder(s, s.flights[id], e.path) ==>
            s.flights[id].recorded || s.flights[id].fromDisk)
      && (mode.Reactive? && e.kind.Deleted? ==> IsUnshared(mode, s, e.path))
    case Invalidate(c) => forall id :: id in s.flights && s.flights[id].key.component == c ==> !IsBehind(s, s.flights[id])
    case _ => true
  }

  /** Under HMR nothing is held back while no open render holds an older text, and no event once those that do are recorded. */
  lemma NoneBehindIsApart(s: State, step: Step)
    requires forall id :: id in s.flights && IsBehind(s, s.flights[id]) ==>
      step.Arrive? && (s.flights[id].recorded || s.flights[id].fromDisk)
    ensures IsApart(Hmr, s, step)
  {
  }

  /** Nor under a reactive registry while nothing is open, but for the deletion of what others have reported. */
  lemma IdleIsApart(nameFor: map<string, string>, s: State, step: Step)
    requires s.flights == map[]
    ensures IsApart(Reactive(nameFor), s, step) <==>
      !(step.Arrive? && step.event.kind.Deleted?) || IsUnshared(Reactive(nameFor), s, step.event.path)
  {
  }

  lemma OwnDoesNotEscape(mode: Mode, s: State, e: Event, c: string, seen: Files, sources: set<string>)
    requires mode.Reactive? && e.kind.Deleted? && (e.path in sources ==> IsOwn(mode, e.path, c))
    ensures !Escapes(s, e, Affected(mode, s, e), c, seen, sources)
  {
  }

  lemma ArriveIsGuarded(b: Bundling, mode: Mode, s: State, e: Event)
    requires Inv(b, s) && CanStep(b, s, Arrive(e)) && IsApart(mode, s, Arrive(e))
    ensures IsGuarded(mode, s, Arrive(e))
  {
    hide IsKept, IsFiled, IsBuild, IsCovered, Affected, Escapes, IsIndexed, HasOlder;
    var orphans := mode.Reactive? && e.kind.Deleted?;
    forall id | id in s.flights
      ensures !Escapes(s, e, Affected(mode, s, e), s.flights[id].key.component, s.flights[id].entry.seen,
                       s.flights[id].entry.built.sources)
    {
      FlightDoesNotEscape(b, mode, s, e, s.flights[id]);
    }
    if orphans {
      forall c: string, seen: Files, sources: set<string> | e.path in sources ==> IsOwn(mode, e.path, c)
        ensures !Escapes(s, e, Affected(mode, s, e), c, seen, sources)
      {
        OwnDoesNotEscape(mode, s, e, c, seen, sources);
      }
    }
  }

  lemma FlightDoesNotEscape(b: Bundling, mode: Mode, s: State, e: Event, f: Flight)
    requires IsFlying(b, s, f) && (HasOlder(s, f, e.path) ==> f.recorded || f.fromDisk)
    requires mode.Reactive? && e.kind.Deleted? && e.path in f.entry.built.sources ==> IsOwn(mode, e.path, f.key.component)
    ensures !Escapes(s, e, Affected(mode, s, e), f.key.component, f.entry.seen, f.entry.built.sources)
  {
    if mode.Reactive? && e.kind.Deleted? {
      OwnDoesNotEscape(mode, s, e, f.key.component, f.entry.seen, f.entry.built.sources);
    } else if HasOlder(s, f, e.path) {
      CachedDoesNotEscape(mode, s, e, f.key.component, f.entry, f.entry.seen);
    }
  }

  lemma ApartIsGuarded(b: Bundling, mode: Mode, s: State, step: Step)
    requires Inv(b, s) && CanStep(b, s, step) && IsApart(mode, s, step)
    ensures IsGuarded(mode, s, step)
  {
    match step
    case Arrive(e) => ArriveIsGuarded(b, mode, s, e);
    case Invalidate(c) =>
      forall id | id in s.flights && s.flights[id].key.component == c
        ensures IsCovered(s.(due := s.due - {c}), c, s.flights[id].entry)
      {
        NotBehindIsCovered(s, s.flights[id], c, s.due - {c});
      }
    case _ =>
  }

  lemma NotBehindIsCovered(s: State, f: Flight, c: string, due: set<string>)
    requires !IsBehind(s, f)
    ensures IsCovered(s.(due := due), c, f.entry)
  {
    assert forall p :: p in f.entry.built.sources ==> !HasOlder(s, f, p);
  }

  predicate IsApartRun(b: Bundling, mode: Mode, s: State, steps: seq<Step>)
    requires IsRun(b, mode, s, steps)
    decreases |steps|
  {
    steps == [] || (IsApart(mode, s, steps[0]) && IsApartRun(b, mode, After(b, mode, s, steps[0]), steps[1..]))
  }

  lemma {:induction false} ApartRunIsGuarded(b: Bundling, mode: Mode, s: State, steps: seq<Step>)
    requires ReportsAll(b) && Inv(b, s) && IsRun(b, mode, s, steps) && IsApartRun(b, mode, s, steps)
    ensures IsGuardedRun(b, mode, s, steps)
    decreases |steps|
  {
    hide Inv, After, CanStep, IsGuarded, IsApart;
    if steps != [] {
      ApartIsGuarded(b, mode, s, steps[0]);
      StepInv(b, mode, s, steps[0]);
      ApartRunIsGuarded(b, mode, After(b, mode, s, steps[0]), steps[1..]);
    }
  }

  /**
   In every run from empty caches that keeps events and open renders apart, once each
   event is handled every render returns what bundling from scratch would; before
   that, a stale memory entry is about to be invalidated or has a source with an
   event to come.
   */
  lemma RunsAreCoherent(b: Bundling, mode: Mode, files: Files, steps: seq<Step>)
    requires ReportsAll(b) && IsRun(b, mode, Start(files), steps) && IsApartRun(b, mode, Start(files), steps)
    ensures var s := End(b, mode, Start(files), steps);
      && (IsQuiet(s) ==> IsCoherent(b, s))
      && (forall key :: key in s.mem && Served(b, s, key) != Scratch(b, s, key) ==>
            key.component in s.due || exists p :: p in s.mem[key].built.sources && IsQueued(s.queue, p))
  {
    StartInv(b, files);
    ApartRunIsGuarded(b, mode, Start(files), steps);
    GuardedRunsAreCoherent(b, mode, files, steps);
  }
}

/**
 The state machine of cache coherence against the operations it stands for: what an
 event affects is what the bundler's closures remove, and what is recorded of the
 sources is what the disk cache records.
 */
module EventEffects {
  import opened Wrappers
  import Caches
  import DiskCaching
  import Invalidation
  import opened Coherence

  /** The memory cache, whatever the artifacts are. */
  function Held(s: State, of: Entry -> Caches.Rendered): map<Caches.CacheKey, Caches.Rendered> {
    map k | k in s.mem :: of(s.mem[k])
  }

  /** Under HMR an event about a file leaves what `InvalidateForSource` leaves for a file that is no component's. */
  lemma HmrRemovesAffected(s: State, of: Entry -> Caches.Rendered, e: Event, k: Caches.CacheKey)
    ensures k in Invalidation.Outside(Held(s, of), Dependents(s.index, e.path)) <==>
      k in s.mem && k.component !in Affected(Hmr, s, e)
  {
  }

  lemma DependentsAre(index: set<(string, string)>, path: string)
    ensures forall c :: c in Dependents(index, path) <==> (path, c) in index
  {
    forall c | (path, c) in index ensures c in Dependents(index, path) {
      assert (path, c).0 == path;
    }
  }

  /**
   Under a reactive registry a created or changed file leaves what `InvalidateForSource`
   leaves for its component file, and a deleted one what dropping the component leaves.
   */
  lemma ReactiveRemovesAffected(s: State, of: Entry -> Caches.Rendered, nameFor: map<string, string>, e: Event,
                                k: Caches.CacheKey)
    ensures !e.kind.Deleted? ==>
      var left := Invalidation.Outside(Held(s, of), Dependents(s.index, e.path));
      (k in (if e.path in nameFor then Invalidation.OutsideFile(left, nameFor[e.path]) else left) <==>
        k in s.mem && k.component !in Affected(Reactive(nameFor), s, e))
    ensures e.kind.Deleted? ==>
      (k in (if e.path in nameFor then Caches.Without(Held(s, of), nameFor[e.path]) else Held(s, of)) <==>
        k in s.mem && k.component !in Affected(Reactive(nameFor), s, e))
  {
    if k in s.mem && e.path in nameFor && Caches.IsInFile(k.component, nameFor[e.path]) {
      assert k.component in InFile(s, nameFor[e.path]);
    }
    if k in s.mem && e.path in nameFor && k.component in InFile(s, nameFor[e.path]) {
      InFileIsInFile(s, nameFor[e.path], k.component);
    }
  }

  lemma InFileIsInFile(s: State, file: string, component: string)
    requires component in InFile(s, file)
    ensures Caches.IsInFile(component, file)
  {
  }

  /** A render that memory cannot serve goes one way: promoting what holds on disk, or else bundling, if that succeeds. */
  lemma RenderTakesOneWay(b: Bundling, s: State, key: Caches.CacheKey)
    ensures !(CanStep(b, s, Read(key)) && CanStep(b, s, ReadDisk(key)))
    ensures CanStep(b, s, Read(key)) || CanStep(b, s, ReadDisk(key)) <==> key !in s.mem && Served(b, s, key).Some?
    ensures CanStep(b, s, ReadDisk(key)) ==> Served(b, s, key) == Some(s.disk[key].entry.built.artifact)
  {
  }

  /** What is promoted is stored at once and never recorded; what is bundled is recorded before it is stored. */
  lemma PromotionIsUnrecorded(b: Bundling, s: State, id: nat)
    requires id in s.flights
    ensures CanStep(b, s, Record(id)) <==> !s.flights[id].fromDisk
    ensures !s.flights[id].recorded ==> (CanStep(b, s, Store(id)) <==> s.flights[id].fromDisk)
  {
  }

  /** Invalidating a component file goes over the file's own name and every cached name selected out of it. */
  lemma InFileIs(s: State, file: string, c: string)
    ensures c in InFile(s, file) <==>
      c == file || (Caches.IsSelectedFrom(c, file) && ((exists k :: k in s.mem && k.component == c) ||
                                                       (exists k :: k in s.disk && k.component == c)))
  {
    Caches.InFileIff(c, file);
    hide Caches.IsInFile, Caches.IsSelectedFrom;
  }

  /** What is recorded of a bundle's sources: each that is there, with what it holds. */
  lemma DigestsAreRecorded(sources: seq<string>, files: Files)
    ensures Digests((set p | p in sources), files) == DiskCaching.Recorded(sources, files)
    ensures forall p :: At(Digests((set p | p in sources), files), p) == if p in sources then At(files, p) else None
  {
  }

  /** An edit leaves the text where it was made, or nothing, and every other file as it was. */
  lemma PutIs(files: Files, path: string, text: Option<string>, p: string)
    ensures At(Put(files, path, text), p) == if p == path then text else At(files, p)
    ensures KindOf(files, path, text) ==
      if text == None then Deleted else if At(files, path) == None then Created else Changed
  {
  }
}

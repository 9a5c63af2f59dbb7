/**
 Caches checked by stamp: the parsed files of internal/types/extract.go and the
 analyses of internal/ssr/programs.go, over the readers of internal/sources.

 One file is followed through its versions. A reader takes a stamp, later loads the
 text, and later still stores what it has; edits and other readers come between.
 */
module Stamps {
  import opened Wrappers

  datatype Version = Gone | Present(text: string, stamp: string)

  /** How a cache reads: whether it keeps failures, and whether stamp and text come at once. */
  datatype Policy = Policy(keepsErrors: bool, atomic: bool)

  /** A stamp, and the text it is stored beside; none when the file could not be read. */
  datatype Cached = Cached(stamp: string, text: Option<string>)

  datatype Reader = Stamped(stamp: string) | Loaded(cached: Cached)

  datatype State = State(history: seq<Version>, cache: Option<Cached>, readers: map<nat, Reader>, next: nat)

  /**
   A reader begins with the stamp its own read takes. Its check came before and missed,
   but by now another reader may have stored, so the cache does not matter.
   */
  datatype Step = Edit(version: Version) | Begin | Load(id: nat) | Finish(id: nat) | Forget

  function TextOf(v: Version): Option<string> {
    match v
    case Gone => None
    case Present(text, _) => Some(text)
  }

  function Now(s: State): Version
    requires s.history != []
  {
    s.history[|s.history| - 1]
  }

  /** The cached stamp is the file's. */
  predicate IsHit(s: State)
    requires s.history != []
  {
    s.cache.Some? && Now(s).Present? && s.cache.value.stamp == Now(s).stamp
  }

  predicate IsStale(s: State)
    requires s.history != []
  {
    IsHit(s) && s.cache.value.text != Some(Now(s).text)
  }

  function Start(first: Version): State {
    State([first], None, map[], 0)
  }

  predicate CanStep(s: State, step: Step)
    requires s.history != []
  {
    match step
    case Edit(_) => true
    case Begin => Now(s).Present?
    case Load(id) => id in s.readers && s.readers[id].Stamped?
    case Finish(id) => id in s.readers && s.readers[id].Loaded?
    case Forget => true
  }

  /** What loading finds; an atomic reader takes the stamp again with the text. */
  function LoadedOf(policy: Policy, stamp: string, now: Version): Cached {
    Cached(if policy.atomic && now.Present? then now.stamp else stamp, TextOf(now))
  }

  predicate IsStored(policy: Policy, cached: Cached) {
    cached.text.Some? || policy.keepsErrors
  }

  function After(policy: Policy, s: State, step: Step): (t: State)
    requires s.history != [] && CanStep(s, step)
    ensures t.history != [] && s.history <= t.history
  {
    match step
    case Edit(v) => s.(history := s.history + [v])
    case Begin => s.(readers := s.readers[s.next := Stamped(Now(s).stamp)], next := s.next + 1)
    case Load(id) => s.(readers := s.readers[id := Loaded(LoadedOf(policy, s.readers[id].stamp, Now(s)))])
    case Finish(id) =>
      var cached := s.readers[id].cached;
      s.(cache := if IsStored(policy, cached) then Some(cached) else s.cache, readers := s.readers - {id})
    case Forget => s.(cache := None)
  }

  predicate IsRun(policy: Policy, s: State, steps: seq<Step>)
    requires s.history != []
    decreases |steps|
  {
    steps == [] || (CanStep(s, steps[0]) && IsRun(policy, After(policy, s, steps[0]), steps[1..]))
  }

  function End(policy: Policy, s: State, steps: seq<Step>): (t: State)
    requires s.history != [] && IsRun(policy, s, steps)
    ensures t.history != []
    decreases |steps|
  {
    if steps == [] then s else End(policy, After(policy, s, steps[0]), steps[1..])
  }

  // ---------------------------------------------------------- when a stamp can be trusted

  /** The text at j was read between the stamp at i and now. */
  predicate MayBeKept(policy: Policy, history: seq<Version>, i: nat, j: nat) {
    && i <= j < |history| && history[i].Present?
    && (history[j].Present? || policy.keepsErrors)
    && (policy.atomic && history[j].Present? ==> i == j)
  }

  /** A stamp that comes back has only ever had one text between its occurrences. */
  predicate NeverMisleads(policy: Policy, history: seq<Version>) {
    forall i, j, k | 0 <= i <= j <= k < |history| ::
      MayBeKept(policy, history, i, j) && history[k].Present? && history[i].stamp == history[k].stamp ==>
        TextOf(history[j]) == TextOf(history[k])
  }

  /** No stamp is ever given twice. */
  predicate AreFresh(history: seq<Version>) {
    forall i, k :: 0 <= i < k < |history| && history[i].Present? && history[k].Present? ==>
      history[i].stamp != history[k].stamp
  }

  /** Equal stamps mean equal text. */
  predicate AreFaithful(history: seq<Version>) {
    forall i, k :: 0 <= i < k < |history| && history[i].Present? && history[k].Present? ==>
      history[i].stamp == history[k].stamp ==> history[i].text == history[k].text
  }

  lemma FreshNeverMisleads(policy: Policy, history: seq<Version>)
    requires AreFresh(history)
    ensures NeverMisleads(policy, history)
  {
    forall i, j, k | 0 <= i <= j <= k < |history| && MayBeKept(policy, history, i, j) && history[k].Present? &&
                     history[i].stamp == history[k].stamp
      ensures TextOf(history[j]) == TextOf(history[k])
    {
      assert !(i < k);
    }
  }

  /** In-process sources are stamped with their content, and read with it. */
  lemma FaithfulAtomicNeverMisleads(history: seq<Version>)
    requires AreFaithful(history)
    ensures NeverMisleads(Policy(false, true), history)
  {
  }

  // ------------------------------------------------------------------- over every run

  /** Stamped at some version, read at one no older. */
  predicate IsTimed(policy: Policy, history: seq<Version>, cached: Cached) {
    exists i, j :: 0 <= i <= j < |history| && IsTimedAt(policy, history, cached, i, j)
  }

  predicate IsTimedAt(policy: Policy, history: seq<Version>, cached: Cached, i: nat, j: nat)
    requires i <= j < |history|
  {
    && history[i].Present? && history[i].stamp == cached.stamp && TextOf(history[j]) == cached.text
    && (policy.atomic && cached.text.Some? ==> i == j)
  }

  predicate WasStamped(history: seq<Version>, stamp: string) {
    exists i :: 0 <= i < |history| && history[i].Present? && history[i].stamp == stamp
  }

  predicate ReaderInv(policy: Policy, history: seq<Version>, r: Reader) {
    match r
    case Stamped(stamp) => WasStamped(history, stamp)
    case Loaded(cached) => IsTimed(policy, history, cached)
  }

  predicate Inv(policy: Policy, s: State) {
    && s.history != []
    && (s.cache.Some? ==> IsStored(policy, s.cache.value) && IsTimed(policy, s.history, s.cache.value))
    && (forall id :: id in s.readers ==> id < s.next && ReaderInv(policy, s.history, s.readers[id]))
  }

  lemma HistoryGrows(policy: Policy, h: seq<Version>, v: Version)
    ensures forall c :: IsTimed(policy, h, c) ==> IsTimed(policy, h + [v], c)
    ensures forall r :: ReaderInv(policy, h, r) ==> ReaderInv(policy, h + [v], r)
  {
    forall c | IsTimed(policy, h, c) ensures IsTimed(policy, h + [v], c) {
      var i, j :| 0 <= i <= j < |h| && IsTimedAt(policy, h, c, i, j);
      assert IsTimedAt(policy, h + [v], c, i, j);
    }
    forall stamp | WasStamped(h, stamp) ensures WasStamped(h + [v], stamp) {
      var i :| 0 <= i < |h| && h[i].Present? && h[i].stamp == stamp;
      assert (h + [v])[i].Present?;
    }
  }

  lemma LoadIsTimed(policy: Policy, s: State, stamp: string)
    requires s.history != [] && WasStamped(s.history, stamp)
    ensures IsTimed(policy, s.history, LoadedOf(policy, stamp, Now(s)))
  {
    var last := |s.history| - 1;
    var i :| 0 <= i < |s.history| && s.history[i].Present? && s.history[i].stamp == stamp;
    var from := if policy.atomic && Now(s).Present? then last else i;
    assert IsTimedAt(policy, s.history, LoadedOf(policy, stamp, Now(s)), from, last);
  }

  lemma StepInv(policy: Policy, s: State, step: Step)
    requires Inv(policy, s) && CanStep(s, step)
    ensures Inv(policy, After(policy, s, step))
  {
    hide IsTimed, LoadedOf;
    match step
    case Edit(v) => HistoryGrows(policy, s.history, v);
    case Begin => assert s.history[|s.history| - 1] == Now(s);
    case Load(id) => LoadIsTimed(policy, s, s.readers[id].stamp);
    case Finish(_) =>
    case Forget =>
  }

  lemma {:induction false} RunInv(policy: Policy, s: State, steps: seq<Step>)
    requires Inv(policy, s) && s.history != [] && IsRun(policy, s, steps)
    ensures Inv(policy, End(policy, s, steps))
    decreases |steps|
  {
    hide Inv, After, CanStep;
    if steps != [] {
      StepInv(policy, s, steps[0]);
      RunInv(policy, After(policy, s, steps[0]), steps[1..]);
    }
  }

  lemma TimedIsKept(policy: Policy, s: State)
    requires Inv(policy, s) && NeverMisleads(policy, s.history) && IsHit(s)
    ensures s.cache.value.text == Some(Now(s).text)
  {
    var h, cached := s.history, s.cache.value;
    var i, j :| 0 <= i <= j < |h| && IsTimedAt(policy, h, cached, i, j);
    assert i == j ==> h[j].Present?;
    assert MayBeKept(policy, h, i, j);
    assert h[|h| - 1] == Now(s);
  }

  /** Whatever readers and edits do, a hit was made from the text that is there now. */
  lemma HitsAreCurrent(policy: Policy, first: Version, steps: seq<Step>)
    requires IsRun(policy, Start(first), steps)
    requires NeverMisleads(policy, End(policy, Start(first), steps).history)
    ensures !IsStale(End(policy, Start(first), steps))
  {
    RunInv(policy, Start(first), steps);
    var s := End(policy, Start(first), steps);
    if IsHit(s) { TimedIsKept(policy, s); }
  }
}

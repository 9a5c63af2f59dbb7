/**
 Exactly which histories of a file a stamp taken before the read can be trusted over.
 */
module StampLimits {
  import opened Wrappers
  import opened Stamps

  function Edits(versions: seq<Version>): seq<Step> {
    if versions == [] then [] else [Edit(versions[0])] + Edits(versions[1..])
  }

  lemma {:induction false} EditsRun(policy: Policy, s: State, versions: seq<Version>)
    requires s.history != []
    ensures IsRun(policy, s, Edits(versions))
    ensures End(policy, s, Edits(versions)) == s.(history := s.history + versions)
    decreases |versions|
  {
    if versions == [] {
      assert s.history + versions == s.history;
    } else {
      var t := After(policy, s, Edit(versions[0]));
      assert t.history + versions[1..] == s.history + versions;
      EditsRun(policy, t, versions[1..]);
      assert Edits(versions)[1..] == Edits(versions[1..]);
    }
  }

  lemma {:induction false} RunAppend(policy: Policy, s: State, a: seq<Step>, b: seq<Step>)
    requires s.history != [] && IsRun(policy, s, a) && IsRun(policy, End(policy, s, a), b)
    ensures IsRun(policy, s, a + b) && End(policy, s, a + b) == End(policy, End(policy, s, a), b)
    decreases |a|
  {
    hide After, CanStep;
    if a == [] {
      assert a + b == b;
    } else {
      assert (a + b)[1..] == a[1..] + b;
      RunAppend(policy, After(policy, s, a[0]), a[1..], b);
    }
  }

  /** A step, and then the file's versions up to one. */
  lemma StepThenEdits(policy: Policy, s: State, step: Step, versions: seq<Version>) returns (steps: seq<Step>)
    requires s.history != [] && CanStep(s, step)
    ensures IsRun(policy, s, steps)
    ensures End(policy, s, steps)
         == After(policy, s, step).(history := After(policy, s, step).history + versions)
  {
    EditsRun(policy, After(policy, s, step), versions);
    RunAppend(policy, s, [step], Edits(versions));
    steps := [step] + Edits(versions);
  }

  function Alone(h: seq<Version>, i: nat, reader: Reader): State
    requires i < |h|
  {
    State(h[..i + 1], None, map[0 := reader], 1)
  }

  lemma BeginAt(policy: Policy, h: seq<Version>, i: nat, j: nat) returns (steps: seq<Step>)
    requires i <= j < |h| && h[i].Present?
    ensures IsRun(policy, State(h[..i + 1], None, map[], 0), steps)
    ensures End(policy, State(h[..i + 1], None, map[], 0), steps) == Alone(h, j, Stamped(h[i].stamp))
  {
    steps := StepThenEdits(policy, State(h[..i + 1], None, map[], 0), Begin, h[i + 1..j + 1]);
  }

  lemma LoadAt(policy: Policy, h: seq<Version>, stamp: string, j: nat, k: nat) returns (steps: seq<Step>)
    requires j <= k < |h|
    ensures IsRun(policy, Alone(h, j, Stamped(stamp)), steps)
    ensures End(policy, Alone(h, j, Stamped(stamp)), steps) == Alone(h, k, Loaded(LoadedOf(policy, stamp, h[j])))
  {
    steps := StepThenEdits(policy, Alone(h, j, Stamped(stamp)), Load(0), h[j + 1..k + 1]);
  }

  lemma FinishAt(policy: Policy, h: seq<Version>, cached: Cached, k: nat) returns (steps: seq<Step>)
    requires k < |h| && IsStored(policy, cached)
    ensures IsRun(policy, Alone(h, k, Loaded(cached)), steps)
    ensures End(policy, Alone(h, k, Loaded(cached)), steps) == State(h[..k + 1], Some(cached), map[], 1)
  {
    steps := StepThenEdits(policy, Alone(h, k, Loaded(cached)), Finish(0), []);
    assert h[..k + 1] + [] == h[..k + 1];
    assert map[0 := Loaded(cached)] - {0} == map[];
  }

  lemma ReachVersion(policy: Policy, h: seq<Version>, i: nat) returns (steps: seq<Step>)
    requires i < |h|
    ensures IsRun(policy, Start(h[0]), steps) && End(policy, Start(h[0]), steps) == State(h[..i + 1], None, map[], 0)
  {
    steps := Edits(h[1..i + 1]);
    EditsRun(policy, Start(h[0]), h[1..i + 1]);
    assert [h[0]] + h[1..i + 1] == h[..i + 1];
  }

  /** One reader, stamping at i, loading at j and storing at k, makes k's hit stale. */
  lemma MisleadingServesStale(policy: Policy, h: seq<Version>, i: nat, j: nat, k: nat) returns (steps: seq<Step>)
    requires i <= j <= k < |h| && MayBeKept(policy, h, i, j) && h[k].Present?
    requires h[i].stamp == h[k].stamp && TextOf(h[j]) != TextOf(h[k])
    ensures IsRun(policy, Start(h[0]), steps)
    ensures End(policy, Start(h[0]), steps).history == h[..k + 1] && IsStale(End(policy, Start(h[0]), steps))
  {
    hide IsRun, End, After, CanStep;
    var cached := LoadedOf(policy, h[i].stamp, h[j]);
    var reach := ReachVersion(policy, h, i);
    var begin := BeginAt(policy, h, i, j);
    var load := LoadAt(policy, h, h[i].stamp, j, k);
    var finish := FinishAt(policy, h, cached, k);
    RunAppend(policy, Alone(h, j, Stamped(h[i].stamp)), load, finish);
    RunAppend(policy, State(h[..i + 1], None, map[], 0), begin, load + finish);
    RunAppend(policy, Start(h[0]), reach, begin + (load + finish));
    steps := reach + (begin + (load + finish));
  }

  /**
   "Equal stamps mean equal text" does not help a reader that stamps first: it stamps
   one text, reads the next, and stores when the first is back.
   */
  lemma ReturningTextServesStale(keepsErrors: bool, v: Version, w: Version)
    requires v.Present? && w.Present? && v.text != w.text && v.stamp != w.stamp
    ensures AreFaithful([v, w, v])
    ensures var policy, steps := Policy(keepsErrors, false), [Begin, Edit(w), Load(0), Edit(v), Finish(0)];
      && IsRun(policy, Start(v), steps) && End(policy, Start(v), steps).history == [v, w, v]
      && IsStale(End(policy, Start(v), steps))
  {
    var policy := Policy(keepsErrors, false);
    var s1 := After(policy, Start(v), Begin);
    var s2 := After(policy, s1, Edit(w));
    var s3 := After(policy, s2, Load(0));
    var s4 := After(policy, s3, Edit(v));
    var s5 := After(policy, s4, Finish(0));
    assert s5.history == [v, w, v] && IsStale(s5);
    hide After, CanStep, IsStale;
    StepFirst(policy, s4, Finish(0), []);
    StepFirst(policy, s3, Edit(v), [Finish(0)]);
    StepFirst(policy, s2, Load(0), [Edit(v), Finish(0)]);
    StepFirst(policy, s1, Edit(w), [Load(0), Edit(v), Finish(0)]);
    StepFirst(policy, Start(v), Begin, [Edit(w), Load(0), Edit(v), Finish(0)]);
  }

  lemma StepFirst(policy: Policy, s: State, step: Step, rest: seq<Step>)
    requires s.history != [] && CanStep(s, step) && IsRun(policy, After(policy, s, step), rest)
    ensures IsRun(policy, s, [step] + rest)
    ensures End(policy, s, [step] + rest) == End(policy, After(policy, s, step), rest)
  {
    assert ([step] + rest)[1..] == rest;
  }

  /** A reader nothing comes between leaves a hit on what is there now, and forgetting leaves none. */
  lemma LoneReadHits(policy: Policy, s: State)
    requires s.history != [] && Now(s).Present?
    ensures var steps := [Begin] + ([Load(s.next)] + ([Finish(s.next)] + []));
      && IsRun(policy, s, steps)
      && IsHit(End(policy, s, steps)) && !IsStale(End(policy, s, steps))
    ensures CanStep(s, Forget) && !IsHit(After(policy, s, Forget)) && After(policy, s, Forget).history == s.history
  {
    var loading := After(policy, s, Begin);
    var loaded := After(policy, loading, Load(s.next));
    var done := After(policy, loaded, Finish(s.next));
    assert IsHit(done) && !IsStale(done);
    hide After, CanStep, IsHit, IsStale;
    StepFirst(policy, loaded, Finish(s.next), []);
    StepFirst(policy, loading, Load(s.next), [Finish(s.next)] + []);
    StepFirst(policy, s, Begin, [Load(s.next)] + ([Finish(s.next)] + []));
  }

  /** No run over these versions, in this order, ever has a stale hit. */
  ghost predicate IsAlwaysCurrent(policy: Policy, history: seq<Version>)
    requires history != []
  {
    forall steps: seq<Step> ::
      IsRun(policy, Start(history[0]), steps) && End(policy, Start(history[0]), steps).history <= history ==>
        !IsStale(End(policy, Start(history[0]), steps))
  }

  /** Stamping before reading rules out stale hits exactly when no stamp comes back around another text. */
  lemma StampBeforeReadIff(policy: Policy, history: seq<Version>)
    requires history != []
    ensures IsAlwaysCurrent(policy, history) <==> NeverMisleads(policy, history)
  {
    hide IsRun, End;
    if NeverMisleads(policy, history) {
      forall steps: seq<Step> | IsRun(policy, Start(history[0]), steps) &&
                                End(policy, Start(history[0]), steps).history <= history
        ensures !IsStale(End(policy, Start(history[0]), steps))
      {
        HitsAreCurrent(policy, history[0], steps);
      }
    } else {
      var i, j, k :| 0 <= i <= j <= k < |history| && MayBeKept(policy, history, i, j) && history[k].Present? &&
        history[i].stamp == history[k].stamp && TextOf(history[j]) != TextOf(history[k]);
      var steps := MisleadingServesStale(policy, history, i, j, k);
    }
  }
}

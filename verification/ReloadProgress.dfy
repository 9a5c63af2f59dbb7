/**
 How runs of the reload protocol end: stopped for good, or quiet.
 */
module ReloadProgress {
  import opened Reload

  // ----------------------------------------------------------------------------- Stop

  lemma ReturnedStep(s: State, step: Step)
    requires Inv(s) && CanStep(s, step) && s.returned
    ensures After(s, step).returned
    ensures s.log <= After(s, step).log
    ensures forall k :: |s.log| <= k < |After(s, step).log| ==> After(s, step).log[k].Touched?
  {
    hide CoverInv, OrderInv, PendingInv, FireInv;
    assert step.Drain? || step.Invalidate? || step.Reload? ==> step.fire in Running(s);
  }

  /**
   From the moment any Stop has returned no callback runs, and none ever does
   again: what is logged from then on is touches alone.
   */
  lemma {:induction false} StoppedForGood(states: seq<State>, i: nat, j: nat)
    requires IsRun(states) && i <= j < |states| && states[i].returned
    ensures states[j].returned && Running(states[j]) == {} && states[j].gate.stopped
    ensures states[i].log <= states[j].log
    ensures forall k :: |states[i].log| <= k < |states[j].log| ==> states[j].log[k].Touched?
    decreases j
  {
    hide Inv, Running, After, CanStep;
    RunInv(states, j);
    if i < j {
      StoppedForGood(states, i, j - 1);
      RunInv(states, j - 1);
      assert Follows(states[j - 1], states[j - 1 + 1]);
      var step :| CanStep(states[j - 1], step) && After(states[j - 1], step) == states[j];
      ReturnedStep(states[j - 1], step);
    }
    ReturnedIsIdle(states[j]);
  }

  lemma ReturnedIsIdle(s: State)
    requires Inv(s) && s.returned
    ensures Running(s) == {} && s.gate.stopped
  {
  }

  // ------------------------------------------------------------------------- progress

  /** Steps the watcher takes by itself once nothing more is touched or stopped. */
  predicate IsInternal(step: Step) {
    !step.Touch? && !step.MarkStop? && !step.FinishStop?
  }

  function Weight(phase: Fire): nat {
    match phase
    case Launched => 3
    case Entered => 2
    case Working(waiting, half) => 1 + 2 * |waiting| + if half.Some? then 1 else 0
  }

  function FireWork(fires: map<nat, Fire>, below: nat): nat {
    if below == 0 then 0
    else FireWork(fires, below - 1) + if below - 1 in fires then Weight(fires[below - 1]) else 0
  }

  function Work(s: State): nat {
    5 * s.arming + (if s.gate.armed then 4 else 0) + 3 * |s.pending| + FireWork(s.fires, s.nextFire)
  }

  function WeightAt(fires: map<nat, Fire>, f: nat): nat {
    if f in fires then Weight(fires[f]) else 0
  }

  /** Fires that differ at one place do work that differs by that one's. */
  lemma {:induction false} FireWorkAt(a: map<nat, Fire>, b: map<nat, Fire>, f: nat, below: nat)
    requires forall g :: g != f ==> (g in a <==> g in b) && (g in a ==> a[g] == b[g])
    ensures FireWork(b, below) == FireWork(a, below) + if f < below then WeightAt(b, f) - WeightAt(a, f) else 0
  {
    if below > 0 { FireWorkAt(a, b, f, below - 1); }
  }

  lemma WorkShrinks(s: State, step: Step)
    requires CanStep(s, step) && IsInternal(step) && forall f :: f in s.fires ==> f < s.nextFire
    ensures Work(After(s, step)) < Work(s)
  {
    var t := After(s, step);
    match step
    case Arm =>
    case Expire => FireWorkAt(s.fires, t.fires, s.nextFire, s.nextFire);
    case Enter(f) => FireWorkAt(s.fires, t.fires, f, s.nextFire);
    case Drain(f) => FireWorkAt(s.fires, t.fires, f, s.nextFire);
    case Invalidate(f, _) => FireWorkAt(s.fires, t.fires, f, s.nextFire);
    case Reload(f, _) => FireWorkAt(s.fires, t.fires, f, s.nextFire);
    case Return(f) => FireWorkAt(s.fires, t.fires, f, s.nextFire);
  }

  /** A state that is not quiet can always move. */
  lemma NeverStuck(s: State) returns (step: Step)
    requires Inv(s) && !IsQuiet(s)
    ensures IsInternal(step) && CanStep(s, step)
  {
    if s.arming > 0 { return Arm; }
    if s.gate.armed { return Expire; }
    var f :| f in s.fires;
    match s.fires[f]
    case Launched => return Enter(f);
    case Entered => return Drain(f);
    case Working(waiting, half) =>
      if half.Some? { return Reload(f, half.value); }
      if waiting != {} {
        var name :| name in waiting;
        return Invalidate(f, name);
      }
      assert f in Running(s);
      return Return(f);
  }

  /** Steps taken by the watcher alone, one after another. */
  predicate AreInternal(s: State, steps: seq<Step>)
    decreases |steps|
  {
    steps == [] || (IsInternal(steps[0]) && CanStep(s, steps[0]) && AreInternal(After(s, steps[0]), steps[1..]))
  }

  function AfterAll(s: State, steps: seq<Step>): State
    requires AreInternal(s, steps)
    decreases |steps|
  {
    if steps == [] then s else AfterAll(After(s, steps[0]), steps[1..])
  }

  /**
   Left alone, the watcher takes at most so many steps, whichever it takes, and
   it is quiet exactly when it can take no more.
   */
  lemma {:induction false} QuietIsReached(s: State, steps: seq<Step>)
    requires Inv(s) && AreInternal(s, steps)
    ensures |steps| <= Work(s)
    ensures IsQuiet(AfterAll(s, steps)) <==> !exists more :: IsInternal(more) && CanStep(AfterAll(s, steps), more)
    decreases |steps|
  {
    hide After, CanStep, Work;
    if steps == [] {
      hide Inv;
      QuietIffDone(s);
    } else {
      WorkShrinks(s, steps[0]);
      StepInv(s, steps[0]);
      QuietIsReached(After(s, steps[0]), steps[1..]);
    }
  }

  lemma QuietIffDone(s: State)
    requires Inv(s)
    ensures IsQuiet(s) <==> !exists more :: IsInternal(more) && CanStep(s, more)
  {
    hide Inv;
    if !IsQuiet(s) { var step := NeverStuck(s); }
  }
}

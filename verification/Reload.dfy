/**
 The debounced reload protocol: enqueuers, timers, overlapping fires and stops,
 interleaved in any order. Each step is one lock-held section, or one call the
 callback makes.
 */
module Reload {
  import opened Debounce
  import opened Wrappers

  /** What has happened so far, oldest first. */
  datatype Event =
    | Touched(names: set<string>, added: set<string>)
    | Drained(fire: nat, names: set<string>)
    | Invalidated(fire: nat, name: string)
    | Reloaded(fire: nat, name: string)

  /**
   A fire, from its timer running out to its return. While working it still has
   to invalidate some names, and may hold one it has invalidated and not reloaded.
   */
  datatype Fire = Launched | Entered | Working(waiting: set<string>, half: Option<string>)

  datatype State = State(
    gate: Gate,
    pending: set<string>,
    arming: nat,               // enqueuers between adding their names and arming
    fires: map<nat, Fire>,
    nextFire: nat,
    stopping: nat,             // stops that have marked and are waiting
    returned: bool,            // some stop has returned
    log: seq<Event>)

  datatype Step =
    | Touch(names: set<string>)
    | Arm
    | Expire
    | Enter(fire: nat)
    | Drain(fire: nat)
    | Invalidate(fire: nat, name: string)
    | Reload(fire: nat, name: string)
    | Return(fire: nat)
    | MarkStop
    | FinishStop

  function Start(): State {
    State(Gate(false, false, 0), {}, 0, map[], 0, 0, false, [])
  }

  predicate IsAt(s: State, fire: nat, phase: Fire) {
    fire in s.fires && s.fires[fire] == phase
  }

  predicate IsWorking(s: State, fire: nat) {
    fire in s.fires && s.fires[fire].Working?
  }

  predicate CanStep(s: State, step: Step) {
    match step
    case Touch(names) => names != {}
    case Arm => s.arming > 0
    case Expire => s.gate.armed
    case Enter(f) => IsAt(s, f, Launched)
    case Drain(f) => IsAt(s, f, Entered)
    case Invalidate(f, name) => IsWorking(s, f) && s.fires[f].half.None? && name in s.fires[f].waiting
    case Reload(f, name) => IsWorking(s, f) && s.fires[f].half == Some(name)
    case Return(f) => IsAt(s, f, Working({}, None)) && s.gate.running > 0
    case MarkStop => true
    case FinishStop => s.stopping > 0 && s.gate.running == 0
  }

  function After(s: State, step: Step): State
    requires CanStep(s, step)
  {
    match step
    case Touch(names) =>
      s.(pending := s.pending + names, arming := s.arming + 1, log := s.log + [Touched(names, names - s.pending)])
    case Arm => s.(gate := ArmGate(s.gate), arming := s.arming - 1)
    case Expire =>
      s.(gate := ExpireGate(s.gate), fires := s.fires[s.nextFire := Launched], nextFire := s.nextFire + 1)
    case Enter(f) =>
      s.(gate := EnterGate(s.gate), fires := if s.gate.stopped then s.fires - {f} else s.fires[f := Entered])
    case Drain(f) =>
      s.(pending := {}, fires := s.fires[f := Working(s.pending, None)], log := s.log + [Drained(f, s.pending)])
    case Invalidate(f, name) =>
      s.(fires := s.fires[f := Working(s.fires[f].waiting - {name}, Some(name))], log := s.log + [Invalidated(f, name)])
    case Reload(f, name) =>
      s.(fires := s.fires[f := Working(s.fires[f].waiting, None)], log := s.log + [Reloaded(f, name)])
    case Return(f) => s.(gate := LeaveGate(s.gate), fires := s.fires - {f})
    case MarkStop => s.(gate := StopGate(s.gate), stopping := s.stopping + 1)
    case FinishStop => s.(stopping := s.stopping - 1, returned := true)
  }

  ghost predicate IsRun(states: seq<State>) {
    && states != [] && states[0] == Start()
    && forall i :: 0 <= i < |states| - 1 ==> Follows(states[i], states[i + 1])
  }

  ghost predicate Follows(s: State, t: State) {
    exists step :: CanStep(s, step) && After(s, step) == t
  }

  // ------------------------------------------------------------- the gate and its fires

  /** Fires whose callback is running. */
  function Running(s: State): set<nat> {
    set f | f in s.fires && s.fires[f] != Launched
  }

  /** Something is on its way to drain what is pending: a timer, an enqueuer about to arm, or a fire. */
  predicate WillDrain(s: State) {
    s.gate.armed || s.arming > 0 || exists f :: f in s.fires && !s.fires[f].Working?
  }

  predicate WakeInv(s: State) {
    !s.gate.stopped && s.pending != {} ==> WillDrain(s)
  }

  /** The wait group counts the callbacks that run. */
  predicate CountInv(s: State) {
    && (forall f :: f in s.fires ==> f < s.nextFire)
    && s.gate.running == |Running(s)|
  }

  predicate StopInv(s: State) {
    && (s.gate.stopped ==> !s.gate.armed)
    && (s.stopping > 0 || s.returned ==> s.gate.stopped)
    && (s.returned ==> s.gate.running == 0)
  }

  lemma WakeStep(s: State, step: Step)
    requires WakeInv(s) && CanStep(s, step) && (forall f :: f in s.fires ==> f < s.nextFire)
    ensures WakeInv(After(s, step))
  {
    var t := After(s, step);
    if !t.gate.stopped && t.pending != {} && !step.Touch? {
      assert WillDrain(s);
      if step.Arm? || step.Expire? {
        assert step.Expire? ==> s.nextFire in t.fires;
      } else if !s.gate.armed && s.arming == 0 {
        var f :| f in s.fires && !s.fires[f].Working?;
        assert f in t.fires && !t.fires[f].Working?;
      }
    }
  }

  lemma SameRunning(s: State, t: State)
    requires forall f :: f in s.fires || f in t.fires ==> (f in Running(s) <==> f in Running(t))
    ensures Running(t) == Running(s)
  {
  }

  lemma ReplacedRunning(fires: map<nat, Fire>, f: nat, phase: Fire, s: State, t: State)
    requires s.fires == fires && t.fires == fires[f := phase]
    requires f in fires && fires[f] != Launched && phase != Launched
    ensures Running(t) == Running(s)
  {
    SameRunning(s, t);
  }

  lemma CountStep(s: State, step: Step)
    requires CountInv(s) && CanStep(s, step)
    ensures CountInv(After(s, step))
  {
    var t := After(s, step);
    match step
    case Enter(f) =>
      if s.gate.stopped { SameRunning(s, t); } else { EnterCount(s, f); }
    case Return(f) => ReturnCount(s, f);
    case Expire => SameRunning(s, t);
    case Drain(f) => ReplacedRunning(s.fires, f, t.fires[f], s, t);
    case Invalidate(f, _) => ReplacedRunning(s.fires, f, t.fires[f], s, t);
    case Reload(f, _) => ReplacedRunning(s.fires, f, t.fires[f], s, t);
    case _ => SameRunning(s, t);
  }

  lemma EnterCount(s: State, f: nat)
    requires CountInv(s) && CanStep(s, Enter(f)) && !s.gate.stopped
    ensures CountInv(After(s, Enter(f)))
  {
    assert f !in Running(s);
    assert Running(After(s, Enter(f))) == Running(s) + {f};
  }

  lemma ReturnCount(s: State, f: nat)
    requires CountInv(s) && CanStep(s, Return(f))
    ensures CountInv(After(s, Return(f)))
  {
    assert f in Running(s);
    assert Running(After(s, Return(f))) == Running(s) - {f};
  }

  lemma StopStep(s: State, step: Step)
    requires StopInv(s) && CountInv(s) && CanStep(s, step)
    ensures StopInv(After(s, step))
  {
    hide Running;
  }

  // ---------------------------------------------------------------- no reload is lost

  /** After position i, some fire invalidated the name and then reloaded it. */
  predicate Done(log: seq<Event>, i: nat, name: string) {
    exists q, r :: i < q < r < |log| && IsInvalidated(log, q, name) && log[r] == Reloaded(log[q].fire, name)
  }

  predicate IsInvalidated(log: seq<Event>, q: nat, name: string) {
    q < |log| && log[q].Invalidated? && log[q].name == name
  }

  predicate Handed(s: State, name: string) {
    exists f :: f in s.fires && IsWorking(s, f) && name in s.fires[f].waiting
  }

  predicate InHand(s: State, i: nat, name: string) {
    exists q :: i < q < |s.log| && IsInvalidated(s.log, q, name) &&
      IsWorking(s, s.log[q].fire) && s.fires[s.log[q].fire].half == Some(name)
  }

  predicate Covered(s: State, i: nat, name: string) {
    name in s.pending || Handed(s, name) || InHand(s, i, name) || Done(s.log, i, name)
  }

  ghost predicate CoverInv(s: State) {
    forall i, name :: 0 <= i < |s.log| && s.log[i].Touched? && name in s.log[i].names ==> Covered(s, i, name)
  }

  lemma LogGrows(s: State, step: Step)
    requires CanStep(s, step)
    ensures s.log <= After(s, step).log && |After(s, step).log| <= |s.log| + 1
  {
  }

  lemma DoneStays(log: seq<Event>, more: seq<Event>, i: nat, name: string)
    requires log <= more && Done(log, i, name)
    ensures Done(more, i, name)
  {
    var q, r :| i < q < r < |log| && IsInvalidated(log, q, name) && log[r] == Reloaded(log[q].fire, name);
    assert IsInvalidated(more, q, name) && more[r] == Reloaded(more[q].fire, name);
  }

  lemma HandedStays(s: State, step: Step, i: nat, name: string)
    requires CanStep(s, step) && Handed(s, name) && i < |s.log| && forall f :: f in s.fires ==> f < s.nextFire
    ensures Covered(After(s, step), i, name)
  {
    var t := After(s, step);
    var f :| f in s.fires && IsWorking(s, f) && name in s.fires[f].waiting;
    if step == Invalidate(f, name) {
      assert IsInvalidated(t.log, |s.log|, name) && t.log[|s.log|].fire == f;
      assert InHand(t, i, name);
    } else {
      assert f in t.fires && IsWorking(t, f) && name in t.fires[f].waiting;
    }
  }

  lemma InHandStays(s: State, step: Step, i: nat, name: string)
    requires CanStep(s, step) && InHand(s, i, name) && forall f :: f in s.fires ==> f < s.nextFire
    ensures Covered(After(s, step), i, name)
  {
    var t := After(s, step);
    LogGrows(s, step);
    var q :| i < q < |s.log| && IsInvalidated(s.log, q, name) &&
      IsWorking(s, s.log[q].fire) && s.fires[s.log[q].fire].half == Some(name);
    var f := s.log[q].fire;
    assert IsInvalidated(t.log, q, name) && t.log[q].fire == f;
    if step == Reload(f, name) {
      assert t.log[|s.log|] == Reloaded(t.log[q].fire, name);
      assert Done(t.log, i, name);
    } else {
      assert IsWorking(t, f) && t.fires[f].half == Some(name);
      assert InHand(t, i, name);
    }
  }

  lemma PendingStays(s: State, step: Step, name: string)
    requires CanStep(s, step) && name in s.pending
    ensures name in After(s, step).pending || Handed(After(s, step), name)
  {
    if step.Drain? {
      var t := After(s, step);
      assert step.fire in t.fires && IsWorking(t, step.fire) && name in t.fires[step.fire].waiting;
    }
  }

  lemma CoverStep(s: State, step: Step)
    requires CoverInv(s) && CanStep(s, step) && forall f :: f in s.fires ==> f < s.nextFire
    ensures CoverInv(After(s, step))
  {
    var t := After(s, step);
    LogGrows(s, step);
    forall i, name | 0 <= i < |t.log| && t.log[i].Touched? && name in t.log[i].names
      ensures Covered(t, i, name)
    {
      if i == |s.log| {
      } else {
        assert Covered(s, i, name);
        CoverStays(s, step, i, name);
      }
    }
  }

  lemma CoverStays(s: State, step: Step, i: nat, name: string)
    requires CanStep(s, step) && Covered(s, i, name) && i < |s.log| && forall f :: f in s.fires ==> f < s.nextFire
    ensures Covered(After(s, step), i, name)
  {
    hide After, CanStep, Handed, InHand, Done;
    LogGrows(s, step);
    if name in s.pending {
      PendingStays(s, step, name);
    } else if Handed(s, name) {
      HandedStays(s, step, i, name);
    } else if InHand(s, i, name) {
      InHandStays(s, step, i, name);
    } else {
      DoneStays(s.log, After(s, step).log, i, name);
    }
  }

  // ------------------------------------------------------------- each occurrence once

  function Count(log: seq<Event>, p: Event -> bool): nat {
    if log == [] then 0 else Count(log[..|log| - 1], p) + if p(log[|log| - 1]) then 1 else 0
  }

  function IsInsertion(name: string): Event -> bool {
    (e: Event) => e.Touched? && name in e.added
  }

  function IsDrainOf(name: string): Event -> bool {
    (e: Event) => e.Drained? && name in e.names
  }

  function IsDrainBy(fire: nat, name: string): Event -> bool {
    (e: Event) => e.Drained? && e.fire == fire && name in e.names
  }

  function IsInvalidationBy(fire: nat, name: string): Event -> bool {
    (e: Event) => e == Invalidated(fire, name)
  }

  function IsReloadBy(fire: nat, name: string): Event -> bool {
    (e: Event) => e == Reloaded(fire, name)
  }

  lemma CountAppend(log: seq<Event>, e: Event, p: Event -> bool)
    ensures Count(log + [e], p) == Count(log, p) + if p(e) then 1 else 0
  {
    assert (log + [e])[..|log|] == log;
  }

  /** Every insertion into the pending set was drained once, except the one still there. */
  predicate PendingInv(s: State, name: string) {
    Count(s.log, IsInsertion(name)) == Count(s.log, IsDrainOf(name)) + if name in s.pending then 1 else 0
  }

  /** What a fire drained it invalidates once and then reloads once; a fire drains at most once. */
  predicate FireInv(s: State, f: nat, name: string) {
    var drained := Count(s.log, IsDrainBy(f, name));
    var invalidated := Count(s.log, IsInvalidationBy(f, name));
    var reloaded := Count(s.log, IsReloadBy(f, name));
    if IsWorking(s, f) then
      && drained <= 1
      && drained == invalidated + (if name in s.fires[f].waiting then 1 else 0)
      && invalidated == reloaded + (if s.fires[f].half == Some(name) then 1 else 0)
    else if f in s.fires || f >= s.nextFire then drained == 0 && invalidated == 0 && reloaded == 0
    else drained <= 1 && drained == invalidated == reloaded
  }

  lemma PendingStep(s: State, step: Step, name: string)
    requires PendingInv(s, name) && CanStep(s, step)
    ensures PendingInv(After(s, step), name)
  {
    var t := After(s, step);
    if t.log != s.log {
      var e := t.log[|s.log|];
      assert t.log == s.log + [e];
      CountAppend(s.log, e, IsInsertion(name));
      CountAppend(s.log, e, IsDrainOf(name));
    }
  }

  lemma FireStep(s: State, step: Step, f: nat, name: string)
    requires FireInv(s, f, name) && CanStep(s, step) && forall g :: g in s.fires ==> g < s.nextFire
    ensures FireInv(After(s, step), f, name)
  {
    hide Count;
    var t := After(s, step);
    if t.log != s.log {
      var e := t.log[|s.log|];
      assert t.log == s.log + [e];
      CountAppend(s.log, e, IsDrainBy(f, name));
      CountAppend(s.log, e, IsInvalidationBy(f, name));
      CountAppend(s.log, e, IsReloadBy(f, name));
    }
  }

  /** What is in hand was invalidated; what was reloaded had been. */
  predicate OrderInv(s: State) {
    && (forall r :: 0 <= r < |s.log| && s.log[r].Reloaded? ==>
          Invalidated(s.log[r].fire, s.log[r].name) in s.log[..r])
    && (forall f :: f in s.fires && IsWorking(s, f) ==>
          s.fires[f].half.Some? ==> Invalidated(f, s.fires[f].half.value) in s.log)
  }

  lemma OrderStep(s: State, step: Step)
    requires OrderInv(s) && CanStep(s, step)
    ensures OrderInv(After(s, step))
  {
    var t := After(s, step);
    LogGrows(s, step);
    forall r | 0 <= r < |t.log| && t.log[r].Reloaded?
      ensures Invalidated(t.log[r].fire, t.log[r].name) in t.log[..r]
    {
      assert t.log[..r] == s.log[..r];
    }
    forall f | f in t.fires && IsWorking(t, f)
      ensures t.fires[f].half.Some? ==> Invalidated(f, t.fires[f].half.value) in t.log
    {
      if step.Invalidate? && step.fire == f { assert t.log[|s.log|] == Invalidated(f, step.name); }
    }
  }

  // ------------------------------------------------------------------- over whole runs

  ghost predicate Inv(s: State) {
    && WakeInv(s) && CountInv(s) && StopInv(s) && CoverInv(s) && OrderInv(s)
    && (forall name :: PendingInv(s, name))
    && (forall f: nat, name :: FireInv(s, f, name))
  }

  lemma StartInv()
    ensures Inv(Start())
  {
    assert Running(Start()) == {};
  }

  lemma StepInv(s: State, step: Step)
    requires Inv(s) && CanStep(s, step)
    ensures Inv(After(s, step))
  {
    hide WakeInv, StopInv, CoverInv, OrderInv, PendingInv, FireInv, After, CanStep, Running;
    WakeStep(s, step);
    CountStep(s, step);
    StopStep(s, step);
    CoverStep(s, step);
    OrderStep(s, step);
    forall name: string ensures PendingInv(After(s, step), name) { PendingStep(s, step, name); }
    forall f: nat, name: string ensures FireInv(After(s, step), f, name) { FireStep(s, step, f, name); }
  }

  lemma {:induction false} RunInv(states: seq<State>, i: nat)
    requires IsRun(states) && i < |states|
    ensures Inv(states[i])
  {
    hide Inv;
    if i == 0 {
      StartInv();
    } else {
      RunInv(states, i - 1);
      assert Follows(states[i - 1], states[i - 1 + 1]);
      var step :| CanStep(states[i - 1], step) && After(states[i - 1], step) == states[i];
      StepInv(states[i - 1], step);
    }
  }

  /** Until it is stopped, what is pending is always about to be drained. */
  lemma PendingIsAlwaysDue(states: seq<State>, i: nat)
    requires IsRun(states) && i < |states| && !states[i].gate.stopped && states[i].pending != {}
    ensures WillDrain(states[i])
  {
    RunInv(states, i);
  }

  /** Nothing is armed, about to arm or running. */
  predicate IsQuiet(s: State) {
    !s.gate.armed && s.arming == 0 && s.fires == map[]
  }

  /** Left alone until quiet, every component ever touched has since been invalidated and then reloaded. */
  lemma NoReloadIsLost(states: seq<State>, i: nat, k: nat, name: string)
    requires IsRun(states) && i < |states| && IsQuiet(states[i]) && !states[i].gate.stopped
    requires k < |states[i].log| && states[i].log[k].Touched? && name in states[i].log[k].names
    ensures Done(states[i].log, k, name)
  {
    RunInv(states, i);
    assert Covered(states[i], k, name);
  }

  /** Each occurrence a fire drained it invalidated once and reloaded once by the time it is gone. */
  lemma EachOccurrenceOnce(states: seq<State>, i: nat, f: nat, name: string)
    requires IsRun(states) && i < |states| && f < states[i].nextFire && f !in states[i].fires
    ensures Count(states[i].log, IsDrainBy(f, name)) <= 1
    ensures Count(states[i].log, IsInvalidationBy(f, name)) == Count(states[i].log, IsDrainBy(f, name))
    ensures Count(states[i].log, IsReloadBy(f, name)) == Count(states[i].log, IsDrainBy(f, name))
  {
    RunInv(states, i);
    assert FireInv(states[i], f, name);
  }

  /** Every insertion into the pending set is drained by exactly one fire, or is still there. */
  lemma EachInsertionDrainedOnce(states: seq<State>, i: nat, name: string)
    requires IsRun(states) && i < |states|
    ensures Count(states[i].log, IsInsertion(name))
         == Count(states[i].log, IsDrainOf(name)) + if name in states[i].pending then 1 else 0
  {
    RunInv(states, i);
    assert PendingInv(states[i], name);
  }

  /** A tab that is told to reload finds its bundle already invalidated, by the same fire. */
  lemma InvalidatedBeforeReloaded(states: seq<State>, i: nat, r: nat)
    requires IsRun(states) && i < |states| && r < |states[i].log| && states[i].log[r].Reloaded?
    ensures exists q :: 0 <= q < r && states[i].log[q] == Invalidated(states[i].log[r].fire, states[i].log[r].name)
  {
    RunInv(states, i);
    assert Invalidated(states[i].log[r].fire, states[i].log[r].name) in states[i].log[..r];
  }
}

/**
 The reload protocol at work: what a touch and a stop come to when nothing is in
 their way.
 */
module ReloadRuns {
  import opened Wrappers
  import opened Debounce
  import opened Reload

  lemma StepFollows(s: State, step: Step)
    requires CanStep(s, step)
    ensures Follows(s, After(s, step))
  {
  }

  lemma RunGrows(states: seq<State>, step: Step)
    requires IsRun(states) && CanStep(states[|states| - 1], step)
    ensures IsRun(states + [After(states[|states| - 1], step)])
  {
    var last := states[|states| - 1];
    var longer := states + [After(last, step)];
    hide After, CanStep, Start;
    StepFollows(last, step);
    forall i | 0 <= i < |longer| - 1 ensures Follows(longer[i], longer[i + 1]) {
      if i < |states| - 1 { assert Follows(states[i], states[i + 1]); }
    }
  }

  /** Some run ends here. */
  ghost predicate IsReachable(s: State) {
    exists states :: IsRun(states) && states[|states| - 1] == s
  }

  lemma StartIsReachable()
    ensures IsReachable(Start())
  {
    assert IsRun([Start()]);
    assert [Start()][|[Start()]| - 1] == Start();
  }

  lemma StepReaches(s: State, step: Step)
    requires IsReachable(s) && CanStep(s, step)
    ensures IsReachable(After(s, step))
  {
    hide After, CanStep, Start;
    var states :| IsRun(states) && states[|states| - 1] == s;
    RunGrows(states, step);
    var longer := states + [After(s, step)];
    assert longer[|longer| - 1] == After(s, step);
  }

  /** Before anything is touched nothing is armed, running or stopped. */
  lemma StartIsQuiet()
    ensures IsQuiet(Start()) && !Start().gate.stopped && Start().pending == {} && Start().log == []
  {
  }

  /** A touch alone is drained, invalidated and reloaded by one fire, which leaves everything quiet. */
  lemma TouchIsReloaded(s: State, name: string) returns (t: State)
    requires IsReachable(s) && IsQuiet(s) && !s.gate.stopped && s.pending == {}
    ensures IsReachable(t) && IsQuiet(t) && !t.gate.stopped && t.pending == {} && t.stopping == s.stopping
    ensures t.log == s.log + [Touched({name}, {name}), Drained(s.nextFire, {name}), Invalidated(s.nextFire, name),
                              Reloaded(s.nextFire, name)]
  {
    var f := s.nextFire;
    t := Armed(s, name);
    t := Fired(t, f);
    t := DrainedBy(t, f, name);
    StepReaches(t, Reload(f, name));
    t := After(t, Reload(f, name));
    StepReaches(t, Return(f));
    t := After(t, Return(f));
  }

  lemma DrainedBy(s: State, f: nat, name: string) returns (t: State)
    requires IsReachable(s) && s.fires == map[f := Entered] && s.pending == {name}
    ensures IsReachable(t)
    ensures t == s.(pending := {}, fires := map[f := Working({}, Some(name))],
                    log := s.log + [Drained(f, {name}), Invalidated(f, name)])
  {
    StepReaches(s, Drain(f));
    t := After(s, Drain(f));
    StepReaches(t, Invalidate(f, name));
    t := After(t, Invalidate(f, name));
    assert {name} - {name} == {};
    assert t.log == s.log + [Drained(f, {name}), Invalidated(f, name)];
  }

  lemma Armed(s: State, name: string) returns (t: State)
    requires IsReachable(s) && IsQuiet(s) && !s.gate.stopped && s.pending == {}
    ensures IsReachable(t)
    ensures t == s.(gate := s.gate.(armed := true), pending := {name}, log := s.log + [Touched({name}, {name})])
  {
    assert {} + {name} == {name} && {name} - {} == {name};
    StepReaches(s, Touch({name}));
    t := After(s, Touch({name}));
    StepReaches(t, Arm);
    t := After(t, Arm);
  }

  lemma Fired(s: State, f: nat) returns (t: State)
    requires IsReachable(s) && s.gate.armed && !s.gate.stopped && s.nextFire == f
    ensures IsReachable(t)
    ensures t == s.(gate := s.gate.(armed := false, running := s.gate.running + 1), fires := s.fires[f := Entered],
                    nextFire := f + 1)
  {
    StepReaches(s, Expire);
    t := After(s, Expire);
    StepReaches(t, Enter(f));
    t := After(t, Enter(f));
  }

  /** A stop can be marked in any state, any number of times; each waits for the running callbacks, and only for them. */
  lemma StopsWait(s: State)
    requires IsReachable(s)
    ensures CanStep(s, MarkStop) && After(s, MarkStop).stopping == s.stopping + 1 && After(s, MarkStop).gate.stopped
    ensures CanStep(s, FinishStop) <==> s.stopping > 0 && Running(s) == {}
  {
    hide Inv, Running, Follows;
    var states :| IsRun(states) && states[|states| - 1] == s;
    RunInv(states, |states| - 1);
    RunningIffNone(s);
  }

  lemma RunningIffNone(s: State)
    requires Inv(s)
    ensures s.gate.running == 0 <==> Running(s) == {}
  {
    hide Running;
  }

  /** Once no callback runs every stop that was marked returns. */
  lemma {:induction false} StopsReturn(s: State) returns (t: State)
    requires IsReachable(s) && Running(s) == {} && s.stopping > 0
    ensures IsReachable(t) && t == s.(stopping := 0, returned := true)
    decreases s.stopping
  {
    StopsWait(s);
    StepReaches(s, FinishStop);
    t := After(s, FinishStop);
    if t.stopping > 0 {
      assert Running(t) == Running(s);
      t := StopsReturn(t);
    }
  }
}

/**
 internal/watching/debounce.go and the pending set of internal/hmr/watching.go.
 Each lock-held section is one function on the state it protects, and one method
 proved against it.
 */
module Debounce {

  /** What the debouncer's mutex protects: its timer is armed or not. */
  datatype Gate = Gate(stopped: bool, armed: bool, running: nat)

  function ArmGate(g: Gate): Gate {
    if g.stopped then g else g.(armed := true)
  }

  /** The timer runs out; its function is on its way and can no longer be stopped. */
  function ExpireGate(g: Gate): Gate
    requires g.armed
  {
    g.(armed := false)
  }

  function EnterGate(g: Gate): Gate {
    if g.stopped then g else g.(running := g.running + 1)
  }

  function LeaveGate(g: Gate): Gate
    requires g.running > 0
  {
    g.(running := g.running - 1)
  }

  function StopGate(g: Gate): Gate {
    g.(stopped := true, armed := false)
  }

  class Timer {
    var armed: bool

    constructor ()
      ensures armed
    {
      armed := true;
    }

    method Stop()
      modifies this
      ensures !armed
    {
      armed := false;
    }
  }

  class Debouncer {
    var timer: Timer?
    var stopped: bool
    var running: nat

    function View(): Gate
      reads this, timer
    {
      Gate(stopped, timer != null && timer.armed, running)
    }

    constructor ()
      ensures View() == Gate(false, false, 0)
    {
      timer, stopped, running := null, false, 0;
    }

    /** No timer but the newest is ever left armed. */
    method Arm()
      modifies this, timer
      ensures View() == ArmGate(old(View()))
      ensures old(stopped) ==> timer == old(timer)
      ensures !old(stopped) ==> timer != null && fresh(timer) && (old(timer) != null ==> !old(timer).armed)
    {
      if stopped { return; }
      if timer != null { timer.Stop(); }
      timer := new Timer();
    }

    /** The section of `fire` before its callback, which then runs if told to go. */
    method Enter() returns (go: bool)
      modifies this
      ensures timer == old(timer)
      ensures View() == EnterGate(old(View())) && go == !old(stopped)
    {
      if stopped { return false; }
      running := running + 1;
      return true;
    }

    method Leave()
      requires running > 0
      modifies this
      ensures timer == old(timer)
      ensures View() == LeaveGate(old(View()))
    {
      running := running - 1;
    }

    /** The section of `Stop` before it waits for `running` to reach zero. */
    method MarkStopped()
      modifies this, timer
      ensures timer == old(timer)
      ensures View() == StopGate(old(View()))
    {
      stopped := true;
      if timer != null { timer.Stop(); }
    }
  }

  /** The HMR watcher's set of components waiting to be reloaded. */
  class Watcher {
    const debounce: Debouncer
    var pending: set<string>

    constructor (d: Debouncer)
      ensures debounce == d && pending == {}
    {
      debounce, pending := d, {};
    }

    method Enqueue(names: seq<string>)
      modifies this, debounce, debounce.timer
      ensures pending == old(pending) + set n | n in names
      ensures debounce.View() == if names == [] then old(debounce.View()) else ArmGate(old(debounce.View()))
    {
      if |names| == 0 { return; }
      Add(names);
      debounce.Arm();
    }

    /** The section under the watcher's own mutex. */
    method Add(names: seq<string>)
      modifies this
      ensures pending == old(pending) + set n | n in names
    {
      for i := 0 to |names|
        invariant pending == old(pending) + set n | n in names[..i]
      {
        pending := pending + {names[i]};
        assert names[..i + 1] == names[..i] + [names[i]];
      }
      assert names[..|names|] == names;
    }

    /** Empties the set, in the order a map gives its keys: any order, each name once. */
    method Drain() returns (names: seq<string>)
      modifies this
      ensures pending == {}
      ensures (set n | n in names) == old(pending) && |names| == |old(pending)|
    {
      names := [];
      while pending != {}
        invariant (set n | n in names) + pending == old(pending)
        invariant (set n | n in names) !! pending
        invariant |names| + |pending| == |old(pending)|
        decreases |pending|
      {
        var name :| name in pending;
        names := names + [name];
        pending := pending - {name};
      }
    }
  }
}

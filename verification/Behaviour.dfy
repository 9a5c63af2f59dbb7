/**
 What a render call does to the behaviour of its request: renderCallBuilder.go over
 internal/networking/defaults.go and shared/networking/requestBehaviourBuilder.go.
 */
module Behaviour {
  import opened Wrappers
  import opened Events
  import opened Dispatch

  type Handlers = map<EventType, seq<Option<string>>>

  datatype Writer = NoWriter | Raw(id: string) | Synced(id: string)

  /** Wraps a writer, unless there is none or it is wrapped. */
  function Synchronized(w: Writer): Writer {
    match w
    case Raw(id) => Synced(id)
    case _ => w
  }

  /** What a configurator can do with the builder it is handed. `Upon` adds last, `CodeUpon` first. */
  datatype Action =
    | With(middleware: seq<string>)
    | Register(key: EventType, mode: HandlerMode, handler: string)
    | SetWriter(writer: Writer)
    | SetRequest(request: Option<string>)

  datatype Value = Value(writer: Writer, request: Option<string>, handlers: Handlers, middleware: seq<string>)

  /** The bundler's defaults: middleware, and a configurator. */
  datatype Config = Config(middleware: seq<string>, requests: seq<Action>)

  datatype Call =
    | Set(actions: seq<Action>)
    | Alter(actions: seq<Action>)
    | ForRequest(writer: Writer, request: Option<string>)

  function Act(v: Value, a: Action): Value {
    match a
    case With(ms) => v.(middleware := v.middleware + ms)
    case Register(key, mode, h) => v.(handlers := AddTo(v.handlers, key, mode, h))
    case SetWriter(w) => v.(writer := Synchronized(w))
    case SetRequest(r) => v.(request := r)
  }

  function ActAll(v: Value, actions: seq<Action>): Value
    decreases |actions|
  {
    if actions == [] then v else ActAll(Act(v, actions[0]), actions[1..])
  }

  /** A behaviour from the defaults, serving what the previous one served. */
  function Seed(c: Config, writer: Writer, request: Option<string>): Value {
    ActAll(Value(Synchronized(writer), request, map[], c.middleware), c.requests)
  }

  function Make(c: Config, v: Value, call: Call): Value {
    match call
    case Set(actions) => ActAll(Seed(c, v.writer, v.request), actions)
    case Alter(actions) => ActAll(v, actions)
    case ForRequest(w, r) => v.(writer := Synchronized(w), request := r)
  }

  function MakeAll(c: Config, calls: seq<Call>): Value {
    if calls == [] then Seed(c, NoWriter, None)
    else Make(c, MakeAll(c, calls[..|calls| - 1]), calls[|calls| - 1])
  }

  // --------------------------------------------------------- what is left after any calls

  function AddedBy(a: Action): seq<string> {
    if a.With? then a.middleware else []
  }

  function HandlersBy(first: Handlers, a: Action): Handlers {
    if a.Register? then AddTo(first, a.key, a.mode, a.handler) else first
  }

  function WriterBy(first: Writer, a: Action): Writer {
    if a.SetWriter? then Synchronized(a.writer) else first
  }

  function RequestBy(first: Option<string>, a: Action): Option<string> {
    if a.SetRequest? then a.request else first
  }

  function Added(actions: seq<Action>): seq<string> {
    if actions == [] then [] else AddedBy(actions[0]) + Added(actions[1..])
  }

  function Registered(first: Handlers, actions: seq<Action>): Handlers
    decreases |actions|
  {
    if actions == [] then first else Registered(HandlersBy(first, actions[0]), actions[1..])
  }

  /** The actions of the last `Set` and of every `Alter` after it. */
  function SinceLastSet(calls: seq<Call>): seq<Action> {
    if calls == [] then []
    else
      match calls[|calls| - 1]
      case Set(actions) => actions
      case Alter(actions) => SinceLastSet(calls[..|calls| - 1]) + actions
      case ForRequest(_, _) => SinceLastSet(calls[..|calls| - 1])
  }

  /** Everything done, defaults included, in the order it was done. */
  function Stream(c: Config, calls: seq<Call>): seq<Action> {
    if calls == [] then c.requests
    else
      Stream(c, calls[..|calls| - 1]) +
      match calls[|calls| - 1]
      case Set(actions) => c.requests + actions
      case Alter(actions) => actions
      case ForRequest(w, r) => [SetWriter(w), SetRequest(r)]
  }

  function LastWriter(first: Writer, actions: seq<Action>): Writer
    decreases |actions|
  {
    if actions == [] then first else LastWriter(WriterBy(first, actions[0]), actions[1..])
  }

  function LastRequest(first: Option<string>, actions: seq<Action>): Option<string>
    decreases |actions|
  {
    if actions == [] then first else LastRequest(RequestBy(first, actions[0]), actions[1..])
  }

  /** What actions leave of a behaviour. */
  function Acted(v: Value, actions: seq<Action>): Value {
    Value(LastWriter(v.writer, actions), LastRequest(v.request, actions),
          Registered(v.handlers, actions), v.middleware + Added(actions))
  }

  lemma {:induction false} ActAllIs(v: Value, actions: seq<Action>)
    ensures ActAll(v, actions) == Acted(v, actions)
    decreases |actions|
  {
    if actions == [] {
      assert v.middleware + [] == v.middleware;
    } else {
      ActAllIs(Act(v, actions[0]), actions[1..]);
      ActedStep(v, actions);
    }
  }

  lemma ActedStep(v: Value, actions: seq<Action>)
    requires actions != []
    ensures Acted(v, actions) == Acted(Act(v, actions[0]), actions[1..])
  {
    var a, rest := actions[0], actions[1..];
    hide Act, Added, Registered, LastWriter, LastRequest, WriterBy, RequestBy, AddedBy, HandlersBy;
    ActIs(v, a);
    LastStep(v.writer, v.request, v.handlers, actions);
    assert v.middleware + AddedBy(a) + Added(rest) == v.middleware + (AddedBy(a) + Added(rest));
  }

  lemma LastStep(w: Writer, r: Option<string>, hs: Handlers, actions: seq<Action>)
    requires actions != []
    ensures Registered(hs, actions) == Registered(HandlersBy(hs, actions[0]), actions[1..])
    ensures LastWriter(w, actions) == LastWriter(WriterBy(w, actions[0]), actions[1..])
    ensures LastRequest(r, actions) == LastRequest(RequestBy(r, actions[0]), actions[1..])
  {
  }

  lemma ActIs(v: Value, a: Action)
    ensures Act(v, a) == Value(WriterBy(v.writer, a), RequestBy(v.request, a),
                               HandlersBy(v.handlers, a), v.middleware + AddedBy(a))
  {
    assert v.middleware + [] == v.middleware;
  }

  lemma {:induction false} LastAppend(w: Writer, r: Option<string>, a: seq<Action>, b: seq<Action>)
    ensures LastWriter(w, a + b) == LastWriter(LastWriter(w, a), b)
    ensures LastRequest(r, a + b) == LastRequest(LastRequest(r, a), b)
    decreases |a|
  {
    if a == [] {
      assert a + b == b;
    } else {
      hide WriterBy, RequestBy;
      assert (a + b)[1..] == a[1..] + b;
      LastAppend(WriterBy(w, a[0]), RequestBy(r, a[0]), a[1..], b);
    }
  }

  lemma {:induction false} AddedAppend(a: seq<Action>, b: seq<Action>)
    ensures Added(a + b) == Added(a) + Added(b)
  {
    hide AddedBy;
    if a == [] {
      assert a + b == b;
    } else {
      assert (a + b)[1..] == a[1..] + b;
      AddedAppend(a[1..], b);
    }
  }

  lemma {:induction false} RegisteredAppend(hs: Handlers, a: seq<Action>, b: seq<Action>)
    ensures Registered(hs, a + b) == Registered(Registered(hs, a), b)
    decreases |a|
  {
    hide HandlersBy;
    if a == [] {
      assert a + b == b;
    } else {
      assert (a + b)[1..] == a[1..] + b;
      RegisteredAppend(HandlersBy(hs, a[0]), a[1..], b);
    }
  }

  lemma {:induction false} LastIsSynced(w: Writer, actions: seq<Action>)
    requires !w.Raw?
    ensures !LastWriter(w, actions).Raw?
    decreases |actions|
  {
    if actions != [] {
      LastIsSynced(WriterBy(w, actions[0]), actions[1..]);
    }
  }

  lemma SeedIs(c: Config, writer: Writer, request: Option<string>)
    requires !writer.Raw?
    ensures Seed(c, writer, request) == Value(LastWriter(writer, c.requests), LastRequest(request, c.requests),
                                              Registered(map[], c.requests), c.middleware + Added(c.requests))
  {
    ActAllIs(Value(Synchronized(writer), request, map[], c.middleware), c.requests);
  }

  /** What a call builder holds that has done a stream of things, some of them since its last `Set`. */
  function Held(c: Config, stream: seq<Action>, since: seq<Action>): Value {
    Value(LastWriter(NoWriter, stream), LastRequest(None, stream),
          Registered(map[], c.requests + since), c.middleware + Added(c.requests) + Added(since))
  }

  lemma SetHolds(c: Config, stream: seq<Action>, since: seq<Action>, actions: seq<Action>)
    ensures Make(c, Held(c, stream, since), Set(actions)) == Held(c, stream + (c.requests + actions), actions)
  {
    var v := Held(c, stream, since);
    LastIsSynced(NoWriter, stream);
    SeedIs(c, v.writer, v.request);
    ActAllIs(Seed(c, v.writer, v.request), actions);
    LastAppend(NoWriter, None, stream, c.requests + actions);
    LastAppend(v.writer, v.request, c.requests, actions);
    RegisteredAppend(map[], c.requests, actions);
    assert v.writer == LastWriter(NoWriter, stream);
    hide Seed, LastWriter, LastRequest, Added, Registered, ActAll;
  }

  lemma AlterHolds(c: Config, stream: seq<Action>, since: seq<Action>, actions: seq<Action>)
    ensures Make(c, Held(c, stream, since), Alter(actions)) == Held(c, stream + actions, since + actions)
  {
    ActAllIs(Held(c, stream, since), actions);
    AddedAppend(since, actions);
    RegisteredMore(c.requests, since, actions);
    LastAppend(NoWriter, None, stream, actions);
    hide LastWriter, LastRequest, Added, Registered, ActAll;
    var seeded, before, now := c.middleware + Added(c.requests), Added(since), Added(actions);
    assert seeded + before + now == seeded + (before + now);
  }

  lemma RegisteredMore(a: seq<Action>, b: seq<Action>, c: seq<Action>)
    ensures Registered(map[], a + (b + c)) == Registered(Registered(map[], a + b), c)
  {
    hide Registered;
    assert a + (b + c) == (a + b) + c;
    RegisteredAppend(map[], a + b, c);
  }

  lemma ForRequestHolds(c: Config, stream: seq<Action>, since: seq<Action>, w: Writer, r: Option<string>)
    ensures Make(c, Held(c, stream, since), ForRequest(w, r)) == Held(c, stream + [SetWriter(w), SetRequest(r)], since)
  {
    var bind := [SetWriter(w), SetRequest(r)];
    var v := Held(c, stream, since);
    LastAppend(NoWriter, None, stream, bind);
    assert bind[1..] == [SetRequest(r)] && [SetRequest(r)][1..] == [];
    LastStep(v.writer, v.request, v.handlers, bind);
    LastStep(WriterBy(v.writer, bind[0]), RequestBy(v.request, bind[0]), v.handlers, bind[1..]);
  }

  /**
   After any calls the middleware is the bundler's, once, then what was added since the
   last `Set`; the handlers are those the bundler registers, once, and then what was
   registered since; the writer and request are the last that were bound, by whatever
   bound them, and the writer is wrapped exactly once.
   */
  lemma {:induction false} BehaviourIs(c: Config, calls: seq<Call>)
    ensures var v := MakeAll(c, calls);
      && v.middleware == c.middleware + Added(c.requests) + Added(SinceLastSet(calls))
      && v.handlers == Registered(map[], c.requests + SinceLastSet(calls))
      && v.writer == LastWriter(NoWriter, Stream(c, calls)) && !v.writer.Raw?
      && v.request == LastRequest(None, Stream(c, calls))
    decreases |calls|
  {
    MakesHeld(c, calls);
    LastIsSynced(NoWriter, Stream(c, calls));
  }

  lemma {:induction false} MakesHeld(c: Config, calls: seq<Call>)
    ensures MakeAll(c, calls) == Held(c, Stream(c, calls), SinceLastSet(calls))
    decreases |calls|
  {
    if calls == [] {
      SeedIs(c, NoWriter, None);
      assert Added([]) == [] && c.requests + [] == c.requests;
      assert c.middleware + Added(c.requests) + [] == c.middleware + Added(c.requests);
    } else {
      hide Make, Held;
      var before := calls[..|calls| - 1];
      MakesHeld(c, before);
      match calls[|calls| - 1]
      case Set(actions) => SetHolds(c, Stream(c, before), SinceLastSet(before), actions);
      case Alter(actions) => AlterHolds(c, Stream(c, before), SinceLastSet(before), actions);
      case ForRequest(w, r) => ForRequestHolds(c, Stream(c, before), SinceLastSet(before), w, r);
    }
  }

  /** Whatever came before, the last writer bound is the one, wrapped, and so is the last request. */
  lemma LastBindingWins(c: Config, calls: seq<Call>, id: string, r: Option<string>, actions: seq<Action>)
    requires forall i :: 0 <= i < |actions| ==> !actions[i].SetWriter? && !actions[i].SetRequest?
    ensures var v := MakeAll(c, calls + [ForRequest(Raw(id), r)]); v.writer == Synced(id) && v.request == r
    ensures MakeAll(c, calls + [ForRequest(Synced(id), r)]).writer == Synced(id)
    ensures MakeAll(c, calls + [ForRequest(NoWriter, r)]).writer == NoWriter
    ensures var v := MakeAll(c, calls + [Alter([SetWriter(Raw(id)), SetRequest(r)] + actions)]);
      v.writer == Synced(id) && v.request == r
  {
    forall call: Call ensures MakeAll(c, calls + [call]) == Make(c, MakeAll(c, calls), call) {
      assert (calls + [call])[..|calls|] == calls;
    }
    var bind := [SetWriter(Raw(id)), SetRequest(r)];
    ActAllIs(MakeAll(c, calls), bind + actions);
    LastAppend(MakeAll(c, calls).writer, MakeAll(c, calls).request, bind, actions);
    assert bind[1..] == [SetRequest(r)] && [SetRequest(r)][1..] == [];
    NothingBound(Synced(id), r, actions);
  }

  lemma {:induction false} NothingBound(w: Writer, r: Option<string>, actions: seq<Action>)
    requires forall i :: 0 <= i < |actions| ==> !actions[i].SetWriter? && !actions[i].SetRequest?
    ensures LastWriter(w, actions) == w && LastRequest(r, actions) == r
    decreases |actions|
  {
    if actions != [] { NothingBound(w, r, actions[1..]); }
  }

  // ----------------------------------------------------------- the chain of one event type

  predicate Registers(a: Action, key: EventType, mode: HandlerMode) {
    a.Register? && a.key == key && a.mode == mode
  }

  predicate Replaces(actions: seq<Action>, key: EventType) {
    exists i :: 0 <= i < |actions| && Registers(actions[i], key, Replace)
  }

  /** What replaced the chain last. */
  function Replacement(actions: seq<Action>, key: EventType): seq<Option<string>>
    requires Replaces(actions, key)
  {
    if Replaces(actions[1..], key) then Replacement(actions[1..], key) else [Some(actions[0].handler)]
  }

  /** Everything since the chain was last replaced. */
  function SinceReplaced(actions: seq<Action>, key: EventType): seq<Action> {
    if !Replaces(actions, key) then actions else SinceReplaced(actions[1..], key)
  }

  function FirstBy(a: Action, key: EventType): seq<Option<string>> {
    if Registers(a, key, Prefix) then [Some(a.handler)] else []
  }

  function LastBy(a: Action, key: EventType): seq<Option<string>> {
    if Registers(a, key, Postfix) then [Some(a.handler)] else []
  }

  /** What was put first, the latest foremost. */
  function Prefixed(actions: seq<Action>, key: EventType): seq<Option<string>> {
    if actions == [] then []
    else Prefixed(actions[1..], key) + FirstBy(actions[0], key)
  }

  /** What was put last, in order. */
  function Postfixed(actions: seq<Action>, key: EventType): seq<Option<string>> {
    if actions == [] then []
    else LastBy(actions[0], key) + Postfixed(actions[1..], key)
  }

  lemma {:induction false} ChainWithoutReplace(hs: Handlers, actions: seq<Action>, key: EventType)
    requires !Replaces(actions, key)
    ensures ChainOf(Registered(hs, actions), key) == Prefixed(actions, key) + ChainOf(hs, key) + Postfixed(actions, key)
    decreases |actions|
  {
    hide ChainOf, HandlersBy, Registers;
    if actions == [] {
      assert [] + ChainOf(hs, key) + [] == ChainOf(hs, key);
    } else {
      var a, rest := actions[0], actions[1..];
      RestReplaces(actions, key);
      ChainWithoutReplace(HandlersBy(hs, a), rest, key);
      ChainStep(hs, a, key);
      hide Prefixed, Postfixed, Registered;
      ChainRegroup(Prefixed(rest, key), FirstBy(a, key), ChainOf(hs, key), LastBy(a, key), Postfixed(rest, key));
    }
  }

  lemma RestReplaces(actions: seq<Action>, key: EventType)
    requires actions != []
    ensures Replaces(actions, key) <==> Registers(actions[0], key, Replace) || Replaces(actions[1..], key)
  {
    assert forall i :: 0 < i < |actions| ==> actions[i] == actions[1..][i - 1];
    assert forall i :: 0 <= i < |actions[1..]| ==> actions[1..][i] == actions[i + 1];
  }

  lemma ChainStep(hs: Handlers, a: Action, key: EventType)
    requires !Registers(a, key, Replace)
    ensures ChainOf(HandlersBy(hs, a), key) == FirstBy(a, key) + ChainOf(hs, key) + LastBy(a, key)
  {
    assert [] + ChainOf(hs, key) + [] == ChainOf(hs, key);
  }

  lemma ChainRegroup(a: seq<Option<string>>, b: seq<Option<string>>, c: seq<Option<string>>, d: seq<Option<string>>,
                     e: seq<Option<string>>)
    ensures a + (b + c + d) + e == (a + b) + c + (d + e)
  {
  }

  /**
   The chain of an event type is what replaced it last, or else what it was, behind
   what was put first since, the latest foremost, and before what was put last since.
   */
  lemma {:induction false} ChainIs(hs: Handlers, actions: seq<Action>, key: EventType)
    ensures var since := SinceReplaced(actions, key);
      ChainOf(Registered(hs, actions), key) ==
        Prefixed(since, key) + (if Replaces(actions, key) then Replacement(actions, key) else ChainOf(hs, key))
        + Postfixed(since, key)
    decreases |actions|
  {
    if !Replaces(actions, key) {
      ChainWithoutReplace(hs, actions, key);
    } else {
      var rest := actions[1..];
      RestReplaces(actions, key);
      ChainIs(HandlersBy(hs, actions[0]), rest, key);
      if !Replaces(rest, key) {
        assert Registers(actions[0], key, Replace);
        assert SinceReplaced(actions, key) == rest == SinceReplaced(rest, key);
      }
    }
  }

  /** Unless replaced since the last `Set`, the bundler's own chain is in there, once and unbroken. */
  lemma DefaultsStay(c: Config, calls: seq<Call>, key: EventType)
    requires !Replaces(SinceLastSet(calls), key)
    ensures var since := SinceLastSet(calls);
      ChainOf(MakeAll(c, calls).handlers, key)
      == Prefixed(since, key) + ChainOf(Registered(map[], c.requests), key) + Postfixed(since, key)
  {
    BehaviourIs(c, calls);
    RegisteredAppend(map[], c.requests, SinceLastSet(calls));
    ChainWithoutReplace(Registered(map[], c.requests), SinceLastSet(calls), key);
  }

  // ------------------------------------------------------------------ the status, once

  datatype Status = Status(written: bool, sent: seq<nat>)

  /** `CommitStatus`, for a request that has a writer or not. */
  function Commit(s: Status, bound: bool, code: nat): Status {
    if s.written || !bound then s else Status(true, s.sent + [code])
  }

  function CommitAll(s: Status, attempts: seq<(bool, nat)>): Status
    decreases |attempts|
  {
    if attempts == [] then s else CommitAll(Commit(s, attempts[0].0, attempts[0].1), attempts[1..])
  }

  function FirstBound(attempts: seq<(bool, nat)>): seq<nat> {
    if attempts == [] then []
    else if attempts[0].0 then [attempts[0].1]
    else FirstBound(attempts[1..])
  }

  /** However often it is asked, one status is written: the first asked for with a writer to write it. */
  lemma {:induction false} FirstStatusWins(attempts: seq<(bool, nat)>)
    ensures CommitAll(Status(false, []), attempts).sent == FirstBound(attempts)
    decreases |attempts|
  {
    if attempts != [] {
      if attempts[0].0 {
        assert [] + [attempts[0].1] == [attempts[0].1];
        WrittenStays(Status(true, [attempts[0].1]), attempts[1..]);
      } else {
        FirstStatusWins(attempts[1..]);
      }
    }
  }

  lemma {:induction false} WrittenStays(s: Status, attempts: seq<(bool, nat)>)
    requires s.written
    ensures CommitAll(s, attempts) == s
    decreases |attempts|
  {
    if attempts != [] { WrittenStays(s, attempts[1..]); }
  }
}

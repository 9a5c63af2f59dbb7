/**
 shared/networking/handlermap.go: handlers in chains, run along the ancestry of an
 event.
 */
module Dispatch {
  import opened Wrappers
  import opened Events

  // ------------------------------------------------------------------------- dispatching

  /** A handler is its name, or nil. What one returns may depend on what ran before it. */
  type Outcomes = (seq<string>, string) -> Option<string>

  datatype Ran = Ran(calls: seq<string>, error: Option<string>)

  /** Handlers in order, to the first error; nil ones are passed over. */
  function RunChain(chain: seq<Option<string>>, of: Outcomes, before: seq<string>): Ran {
    if chain == [] then Ran(before, None)
    else if chain[0].None? then RunChain(chain[1..], of, before)
    else
      var calls := before + [chain[0].value];
      if of(before, chain[0].value).Some? then Ran(calls, of(before, chain[0].value))
      else RunChain(chain[1..], of, calls)
  }

  function ChainOf(handlers: map<EventType, seq<Option<string>>>, t: EventType): seq<Option<string>> {
    if t in handlers then handlers[t] else []
  }

  /** The chains of an ancestry, end to end. */
  function Chains(handlers: map<EventType, seq<Option<string>>>, types: seq<EventType>): seq<Option<string>> {
    if types == [] then [] else ChainOf(handlers, types[0]) + Chains(handlers, types[1..])
  }

  lemma {:induction false} RunChainAppend(a: seq<Option<string>>, b: seq<Option<string>>, of: Outcomes, before: seq<string>)
    ensures RunChain(a + b, of, before) ==
      var first := RunChain(a, of, before);
      if first.error.Some? then first else RunChain(b, of, first.calls)
    decreases |a|
  {
    if a == [] {
      assert a + b == b;
    } else {
      assert (a + b)[1..] == a[1..] + b;
      RunChainAppend(a[1..], b, of, if a[0].None? then before else before + [a[0].value]);
    }
  }

  method Run(chain: seq<Option<string>>, of: Outcomes, before: seq<string>) returns (ran: Ran)
    ensures ran == RunChain(chain, of, before)
  {
    var calls := before;
    assert chain[0..] == chain;
    for i := 0 to |chain|
      invariant RunChain(chain[i..], of, calls) == RunChain(chain, of, before)
    {
      assert chain[i..][1..] == chain[i + 1..];
      if chain[i].None? { continue; }
      var err := of(calls, chain[i].value);
      calls := calls + [chain[i].value];
      if err.Some? { return Ran(calls, err); }
    }
    return Ran(calls, None);
  }

  datatype HandlerMode = Replace | Prefix | Postfix

  /** One chain gains a handler, or becomes it; every other is as it was. */
  function AddTo(handlers: map<EventType, seq<Option<string>>>, key: EventType, mode: HandlerMode, handler: string)
    : map<EventType, seq<Option<string>>>
  {
    handlers[key :=
      match mode
      case Replace => [Some(handler)]
      case Prefix => [Some(handler)] + ChainOf(handlers, key)
      case Postfix => ChainOf(handlers, key) + [Some(handler)]]
  }

  class HandlerMap {
    var internal: map<EventType, seq<Option<string>>>

    constructor ()
      ensures internal == map[]
    {
      internal := map[];
    }

    method AddType(key: EventType, handler: string, mode: HandlerMode)
      modifies this
      ensures internal == AddTo(old(internal), key, mode, handler)
    {
      var existing := ChainOf(internal, key);
      match mode
      case Replace => internal := internal[key := [Some(handler)]];
      case Prefix => internal := internal[key := [Some(handler)] + existing];
      case Postfix => internal := internal[key := existing + [Some(handler)]];
    }

    method Delete(key: EventType) returns (was: bool)
      modifies this
      ensures was == (key in old(internal)) && internal == old(internal) - {key}
    {
      if key !in internal { return false; }
      internal := internal - {key};
      return true;
    }

    method Clear()
      modifies this
      ensures internal == map[]
    {
      internal := map[];
    }

    /** Dispatching is running the chains of the ancestry, end to end, to the first error. */
    method Dispatch(g: map<EventType, seq<EventType>>, event: EventType, of: Outcomes) returns (ran: Ran)
      ensures ran == RunChain(Chains(internal, if event in g then g[event] else []), of, [])
    {
      var types := if event in g then g[event] else [];
      ran := Ran([], None);
      assert types[0..] == types;
      for i := 0 to |types|
        invariant ran.error.None?
        invariant RunChain(Chains(internal, types[i..]), of, ran.calls) == RunChain(Chains(internal, types), of, [])
      {
        assert types[i..][1..] == types[i + 1..];
        RunChainAppend(ChainOf(internal, types[i]), Chains(internal, types[i + 1..]), of, ran.calls);
        if types[i] in internal {
          ran := Run(internal[types[i]], of, ran.calls);
          if ran.error.Some? { return; }
        } else {
          assert [] + Chains(internal, types[i + 1..]) == Chains(internal, types[i + 1..]);
        }
      }
    }
  }

  // ---------------------------------------------------------- what a handler is told of

  function AncestryIn(ts: Types, values: seq<EventType>, t: EventType): seq<EventType> {
    if t in values then Ancestry(ts, t) else []
  }

  /** The handlers of a chain that are there. */
  function Names(chain: seq<Option<string>>): seq<string> {
    if chain == [] then []
    else (if chain[0].Some? then [chain[0].value] else []) + Names(chain[1..])
  }

  /** How far into a chain it gets. */
  function Reach(chain: seq<Option<string>>, of: Outcomes, before: seq<string>): (n: nat)
    ensures n <= |chain|
  {
    if chain == [] then 0
    else if chain[0].None? then 1 + Reach(chain[1..], of, before)
    else if of(before, chain[0].value).Some? then 1
    else 1 + Reach(chain[1..], of, before + [chain[0].value])
  }

  /** The handler at this place errs, when every one before it has run. */
  predicate ErrsAt(chain: seq<Option<string>>, of: Outcomes, before: seq<string>, p: nat)
    requires p < |chain|
  {
    chain[p].Some? && of(before + Names(chain[..p]), chain[p].value).Some?
  }

  lemma {:induction false} RunReaches(chain: seq<Option<string>>, of: Outcomes, before: seq<string>)
    ensures RunChain(chain, of, before).calls == before + Names(chain[..Reach(chain, of, before)])
    decreases |chain|
  {
    if chain == [] {
      assert before + [] == before;
    } else {
      var n := Reach(chain, of, before);
      assert chain[..n][1..] == chain[1..][..n - 1] && chain[..n][0] == chain[0];
      if chain[0].None? {
        RunReaches(chain[1..], of, before);
        assert [] + Names(chain[1..][..n - 1]) == Names(chain[1..][..n - 1]);
      } else if of(before, chain[0].value).Some? {
        assert chain[1..][..0] == [] && [chain[0].value] + [] == [chain[0].value];
      } else {
        RunReaches(chain[1..], of, before + [chain[0].value]);
        assert before + [chain[0].value] + Names(chain[1..][..n - 1])
            == before + ([chain[0].value] + Names(chain[1..][..n - 1]));
      }
    }
  }

  /** It ends with the error of the first that errs, and with none when none does. */
  lemma {:induction false} ErrorIsFirst(chain: seq<Option<string>>, of: Outcomes, before: seq<string>)
    ensures var n, error := Reach(chain, of, before), RunChain(chain, of, before).error;
      && (error.Some? ==> n > 0 && ErrsAt(chain, of, before, n - 1) &&
                          error == of(before + Names(chain[..n - 1]), chain[n - 1].value))
      && (error.None? ==> n == |chain| && (n > 0 ==> !ErrsAt(chain, of, before, n - 1)))
    decreases |chain|
  {
    if chain != [] {
      assert chain[..0] == [] && before + [] == before;
      var first := if chain[0].Some? then [chain[0].value] else [];
      var errs := chain[0].Some? && of(before, chain[0].value).Some?;
      if !errs {
        ErrorIsFirst(chain[1..], of, before + first);
        var n := Reach(chain, of, before);
        if n > 1 {
          ErrsLater(chain, of, before, n - 1);
          NamesFrom(chain, before, n - 1);
        }
      }
    }
  }

  lemma NamesFrom(chain: seq<Option<string>>, before: seq<string>, p: nat)
    requires 0 < p < |chain|
    ensures var first := if chain[0].Some? then [chain[0].value] else [];
      before + Names(chain[..p]) == before + first + Names(chain[1..][..p - 1])
  {
    var first := if chain[0].Some? then [chain[0].value] else [];
    assert chain[..p][1..] == chain[1..][..p - 1] && chain[..p][0] == chain[0];
    assert before + (first + Names(chain[1..][..p - 1])) == before + first + Names(chain[1..][..p - 1]);
  }

  lemma ErrsLater(chain: seq<Option<string>>, of: Outcomes, before: seq<string>, p: nat)
    requires 0 < p < |chain|
    ensures var first := if chain[0].Some? then [chain[0].value] else [];
      ErrsAt(chain, of, before, p) <==> ErrsAt(chain[1..], of, before + first, p - 1)
  {
    var first := if chain[0].Some? then [chain[0].value] else [];
    assert chain[..p][1..] == chain[1..][..p - 1] && chain[..p][0] == chain[0];
    assert before + (first + Names(chain[1..][..p - 1])) == before + first + Names(chain[1..][..p - 1]);
  }

  lemma {:induction false} ReachIff(chain: seq<Option<string>>, of: Outcomes, before: seq<string>, p: nat)
    requires p < |chain|
    ensures p < Reach(chain, of, before) <==> forall q :: 0 <= q < p ==> !ErrsAt(chain, of, before, q)
    decreases |chain|
  {
    assert chain[..0] == [] && before + [] == before;
    assert ErrsAt(chain, of, before, 0) <==> chain[0].Some? && of(before, chain[0].value).Some?;
    if p > 0 && !ErrsAt(chain, of, before, 0) {
      var next := before + if chain[0].Some? then [chain[0].value] else [];
      ReachIff(chain[1..], of, next, p - 1);
      forall q | 0 < q <= p ensures ErrsAt(chain, of, before, q) <==> ErrsAt(chain[1..], of, next, q - 1) {
        ErrsLater(chain, of, before, q);
      }
      hide ErrsAt;
      assert forall q :: 0 <= q < p - 1 ==>
        (ErrsAt(chain[1..], of, next, q) <==> ErrsAt(chain, of, before, q + 1));
    }
  }

  lemma {:induction false} NamesHold(chain: seq<Option<string>>, h: string)
    ensures h in Names(chain) <==> Some(h) in chain
  {
    if chain != [] { NamesHold(chain[1..], h); }
  }

  /** What runs before the chain of a key. */
  function Before(handlers: map<EventType, seq<Option<string>>>, types: seq<EventType>, key: EventType): seq<Option<string>> {
    if types == [] || types[0] == key then [] else ChainOf(handlers, types[0]) + Before(handlers, types[1..], key)
  }

  /** A handler has one place in the map. */
  ghost predicate IsOnlyAt(handlers: map<EventType, seq<Option<string>>>, key: EventType, i: nat, h: string) {
    && i < |ChainOf(handlers, key)| && ChainOf(handlers, key)[i] == Some(h)
    && forall k, j: nat :: j < |ChainOf(handlers, k)| && ChainOf(handlers, k)[j] == Some(h) ==> k == key && j == i
  }

  /** Registering a handler that is nowhere yet gives it one place: last, first or alone in its chain. */
  lemma NewHasOnePlace(handlers: map<EventType, seq<Option<string>>>, key: EventType, h: string)
    requires forall k, j: nat :: j < |ChainOf(handlers, k)| ==> ChainOf(handlers, k)[j] != Some(h)
    ensures IsOnlyAt(AddTo(handlers, key, Postfix, h), key, |ChainOf(handlers, key)|, h)
    ensures IsOnlyAt(AddTo(handlers, key, Prefix, h), key, 0, h)
    ensures IsOnlyAt(AddTo(handlers, key, Replace, h), key, 0, h)
  {
    OneMorePlace(handlers, key, ChainOf(handlers, key) + [Some(h)], |ChainOf(handlers, key)|, h);
    OneMorePlace(handlers, key, [Some(h)] + ChainOf(handlers, key), 0, h);
    OneMorePlace(handlers, key, [Some(h)], 0, h);
  }

  lemma OneMorePlace(handlers: map<EventType, seq<Option<string>>>, key: EventType, chain: seq<Option<string>>, i: nat,
                     h: string)
    requires forall k, j: nat :: j < |ChainOf(handlers, k)| ==> ChainOf(handlers, k)[j] != Some(h)
    requires i < |chain| && forall j :: 0 <= j < |chain| ==> (chain[j] == Some(h) <==> j == i)
    ensures IsOnlyAt(handlers[key := chain], key, i, h)
  {
    var now := handlers[key := chain];
    assert ChainOf(now, key) == chain;
    forall k, j: nat | j < |ChainOf(now, k)| && ChainOf(now, k)[j] == Some(h) ensures k == key && j == i {
      assert k != key ==> ChainOf(now, k) == ChainOf(handlers, k);
    }
  }

  /** A handler is in a chain at this place, or not at all. */
  predicate HasOnePlace(chain: seq<Option<string>>, h: string, isThere: bool, place: nat) {
    && (isThere ==> place < |chain| && chain[place] == Some(h))
    && forall p :: 0 <= p < |chain| && chain[p] == Some(h) ==> isThere && p == place
  }

  lemma NoPlace(h: string, place: nat)
    ensures HasOnePlace([], h, false, place)
  {
  }

  lemma {:induction false} PlacesOf(handlers: map<EventType, seq<Option<string>>>, types: seq<EventType>, key: EventType,
                                    i: nat, h: string)
    requires IsOnlyAt(handlers, key, i, h) && AreDistinct(types)
    ensures HasOnePlace(Chains(handlers, types), h, key in types, |Before(handlers, types, key)| + i)
  {
    hide ChainOf, IsOnlyAt, HasOnePlace;
    if types == [] {
      NoPlace(h, i);
    } else {
      var first, rest := ChainOf(handlers, types[0]), types[1..];
      PlacesOf(handlers, rest, key, i, h);
      OwnPlace(handlers, types[0], key, i, h);
      assert types == [types[0]] + rest;
      assert types[0] == key ==> key !in rest;
      PlacesJoin(first, Chains(handlers, rest), types[0] == key, key in rest, i, |Before(handlers, rest, key)| + i, h);
    }
  }

  /** One occurrence at most in two chains is one at most in both. */
  lemma PlacesJoin(a: seq<Option<string>>, b: seq<Option<string>>, here: bool, there: bool, i: nat, j: nat, h: string)
    requires !(here && there) && HasOnePlace(a, h, here, i) && HasOnePlace(b, h, there, j)
    ensures HasOnePlace(a + b, h, here || there, if here then i else |a| + j)
  {
  }

  lemma OwnPlace(handlers: map<EventType, seq<Option<string>>>, k: EventType, key: EventType, i: nat, h: string)
    requires IsOnlyAt(handlers, key, i, h)
    ensures HasOnePlace(ChainOf(handlers, k), h, k == key, i)
  {
  }

  /** No handler that runs before this one errs. */
  predicate NoneErrBefore(handlers: map<EventType, seq<Option<string>>>, types: seq<EventType>, of: Outcomes,
                          key: EventType, i: nat) {
    forall q: nat :: q < |Before(handlers, types, key)| + i && q < |Chains(handlers, types)| ==>
      !ErrsAt(Chains(handlers, types), of, [], q)
  }

  /**
   A handler hears of an event exactly when the event's type is one of the values, the
   key it is under is the type itself or a category it implements, and no handler that
   runs before it errs.
   */
  lemma HearsIff(ts: Types, values: seq<EventType>, handlers: map<EventType, seq<Option<string>>>, t: EventType,
                 key: EventType, i: nat, h: string, of: Outcomes)
    requires AreDistinct(ts.categories) && IsTransitive(ts) && IsOnlyAt(handlers, key, i, h)
    ensures var types := AncestryIn(ts, values, t);
      h in RunChain(Chains(handlers, types), of, []).calls <==>
        t in values && IsAncestor(ts, t, key) && NoneErrBefore(handlers, types, of, key, i)
  {
    hide Ancestry, IsOnlyAt, RunChain, Reach, Names, ErrsAt, Chains, Before;
    AncestryHolds(ts, t);
    var types := AncestryIn(ts, values, t);
    var chain, place := Chains(handlers, types), |Before(handlers, types, key)| + i;
    var n := Reach(chain, of, []);
    PlacesOf(handlers, types, key, i, h);
    RunReaches(chain, of, []);
    assert [] + Names(chain[..n]) == Names(chain[..n]);
    NamesHold(chain[..n], h);
    if key in types {
      ReachIff(chain, of, [], place);
      assert place < n ==> chain[..n][place] == Some(h);
    }
    assert forall p :: 0 <= p < n ==> chain[..n][p] == chain[p];
  }

  // ---------------------------------------------------------------- the library's own events

  const CONCRETE := [PropsMarshalingFailure, RegistryLookupFailure, EntryGenerationFailure, TempEntryWriteFailure,
                     CompBundlingFailure, CompPropsInsufficientFailure, TransmitRenderedTemplate]

  const CATEGORIES := [DevelopmentFailureEvent, FailureEvent, SuccessEvent, BaseEvent]

  predicate IsDevelopmentFailure(a: EventType) {
    a.DevelopmentFailureEvent? || a.CompPropsInsufficientFailure? || a.AnonymousSourceFailure?
  }

  predicate IsSuccess(a: EventType) {
    a.SuccessEvent? || a.TransmitRenderedTemplate?
  }

  /** What the embedded bases, and the interfaces' own embeddings, make of each type. */
  predicate LibraryImplements(a: EventType, c: EventType) {
    match c
    case DevelopmentFailureEvent => IsDevelopmentFailure(a)
    case FailureEvent => !IsSuccess(a) && !a.BaseEvent? && !a.Other?
    case SuccessEvent => IsSuccess(a)
    case BaseEvent => !a.Other?
    case _ => false
  }

  function Library(): Types {
    Types(CATEGORIES, LibraryImplements)
  }

  /** Whose handlers hear of each of the library's types, in this order. */
  function HeardBy(t: EventType): seq<EventType> {
    match t
    case CompPropsInsufficientFailure => [t, DevelopmentFailureEvent, FailureEvent, BaseEvent]
    case AnonymousSourceFailure => [t, DevelopmentFailureEvent, FailureEvent, BaseEvent]
    case TransmitRenderedTemplate => [t, SuccessEvent, BaseEvent]
    case DevelopmentFailureEvent => [t, FailureEvent, BaseEvent]
    case FailureEvent => [t, BaseEvent]
    case SuccessEvent => [t, BaseEvent]
    case BaseEvent => [t]
    case Other(_) => [t]
    case _ => [t, FailureEvent, BaseEvent]
  }

  function IfImplements(t: EventType, c: EventType): seq<EventType> {
    if c != t && LibraryImplements(t, c) then [c] else []
  }

  lemma CapabilitiesCons(t: EventType, c: EventType, rest: seq<EventType>)
    ensures Capabilities(Library(), t, [c] + rest) == IfImplements(t, c) + Capabilities(Library(), t, rest)
  {
    assert ([c] + rest)[1..] == rest;
  }

  lemma NoCapabilities(t: EventType)
    ensures Capabilities(Library(), t, []) == []
  {
  }

  lemma CategoriesAre()
    ensures CATEGORIES == [DevelopmentFailureEvent] + ([FailureEvent] + ([SuccessEvent] + ([BaseEvent] + [])))
  {
  }

  lemma HeardByCategories(t: EventType)
    ensures HeardBy(t)[1..] ==
      IfImplements(t, DevelopmentFailureEvent) +
      (IfImplements(t, FailureEvent) + (IfImplements(t, SuccessEvent) + (IfImplements(t, BaseEvent) + [])))
  {
  }

  lemma LibraryCapabilities(t: EventType)
    ensures Capabilities(Library(), t, CATEGORIES) == HeardBy(t)[1..]
  {
    hide *;
    CategoriesAre();
    HeardByCategories(t);
    NoCapabilities(t);
    CapabilitiesCons(t, BaseEvent, []);
    CapabilitiesCons(t, SuccessEvent, [BaseEvent] + []);
    CapabilitiesCons(t, FailureEvent, [SuccessEvent] + ([BaseEvent] + []));
    CapabilitiesCons(t, DevelopmentFailureEvent, [FailureEvent] + ([SuccessEvent] + ([BaseEvent] + [])));
  }

  lemma ParentsAreHeardBy(t: EventType)
    ensures Parents(Library(), t) == HeardBy(t)
  {
    LibraryCapabilities(t);
    assert HeardBy(t) == [t] + HeardBy(t)[1..];
  }

  /** Each list is in order already. */
  lemma {:induction false} SortedAlready(types: seq<EventType>)
    requires forall i :: 0 <= i < |types| - 1 ==> |HeardBy(types[i + 1])| <= |HeardBy(types[i])|
    ensures SortTypes(Library(), types) == types
  {
    hide HeardBy, Parents, Library;
    if |types| > 0 {
      SortedAlready(types[1..]);
      ParentsAreHeardBy(types[0]);
      if |types| > 1 { ParentsAreHeardBy(types[1]); }
    }
  }

  lemma HeardByNarrows(t: EventType)
    ensures forall i :: 0 <= i < |HeardBy(t)| - 1 ==> |HeardBy(HeardBy(t)[i + 1])| <= |HeardBy(HeardBy(t)[i])|
  {
  }

  /** The ancestry of each of the library's types is as its embedded bases have it, narrowest first. */
  lemma LibraryAncestry(t: EventType)
    ensures Ancestry(Library(), t) == HeardBy(t)
  {
    hide SortTypes, Parents, HeardBy, Library;
    HeardByNarrows(t);
    ParentsAreHeardBy(t);
    SortedAlready(HeardBy(t));
  }

  lemma LibraryIsOrdered()
    ensures AreDistinct(Library().categories) && IsTransitive(Library())
    ensures AnonymousSourceFailure !in CONCRETE + CATEGORIES
    ensures LibraryImplements(AnonymousSourceFailure, FailureEvent)
  {
  }

  lemma ListedFailures(t: EventType)
    requires t in CONCRETE && !t.TransmitRenderedTemplate?
    ensures t in CONCRETE + CATEGORIES && IsAncestor(Library(), t, FailureEvent)
  {
    assert CATEGORIES[1] == FailureEvent;
  }

  /**
   One failure the library emits is not among the values its graph is built from:
   it implements the failure category, and no handler, under any key, ever hears of it.
   */
  lemma AnonymousSourceIsUnheard(handlers: map<EventType, seq<Option<string>>>, of: Outcomes)
    ensures LibraryImplements(AnonymousSourceFailure, FailureEvent)
    ensures RunChain(Chains(handlers, AncestryIn(Library(), CONCRETE + CATEGORIES, AnonymousSourceFailure)), of, [])
         == Ran([], None)
  {
    LibraryIsOrdered();
  }

  /** Every listed failure is heard of by a handler for failures, unless one before it errs. */
  lemma ListedFailureIsHeard(t: EventType, handlers: map<EventType, seq<Option<string>>>, i: nat, h: string, of: Outcomes)
    requires t in CONCRETE && !t.TransmitRenderedTemplate? && IsOnlyAt(handlers, FailureEvent, i, h)
    ensures var types := AncestryIn(Library(), CONCRETE + CATEGORIES, t);
      h in RunChain(Chains(handlers, types), of, []).calls <==> NoneErrBefore(handlers, types, of, FailureEvent, i)
  {
    hide *;
    LibraryIsOrdered();
    ListedFailures(t);
    HearsIff(Library(), CONCRETE + CATEGORIES, handlers, t, FailureEvent, i, h, of);
  }
}

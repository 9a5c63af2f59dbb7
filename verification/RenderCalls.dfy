/**
 The same render calls in memory: slices that share arrays, request objects that are
 appended to, and artifacts that every request for a component shares.
 */
module RenderCalls {
  import opened Wrappers
  import opened Events
  import opened Dispatch
  import opened Behaviour

  /** A Go slice: a length over an array that may be longer. */
  datatype Slice = Slice(data: array<string>, len: nat) {
    ghost predicate Valid()
      reads data
    {
      len <= data.Length
    }

    function Contents(): seq<string>
      requires Valid()
      reads data
    {
      data[..len]
    }
  }

  /** `append`: into the array while it has room, into a new one when it has not. */
  method Append(s: Slice, xs: seq<string>) returns (t: Slice)
    requires s.Valid()
    modifies s.data
    ensures t.Valid() && t.Contents() == old(s.Contents()) + xs
    ensures if s.len + |xs| <= s.data.Length then t.data == s.data else fresh(t.data)
    ensures s.Contents() == old(s.Contents())
  {
    if s.len + |xs| <= s.data.Length {
      for i := 0 to |xs|
        invariant s.data[..s.len] == old(s.data[..s.len])
        invariant forall k :: 0 <= k < i ==> s.data[s.len + k] == xs[k]
      {
        s.data[s.len + i] := xs[i];
      }
      assert s.data[..s.len + |xs|] == s.data[..s.len] + s.data[s.len..s.len + |xs|];
      assert s.data[s.len..s.len + |xs|] == xs[..|xs|] == xs;
      return Slice(s.data, s.len + |xs|);
    }
    var all := s.data[..s.len] + xs;
    var data := new string[|all|](i requires 0 <= i < |all| => all[i]);
    assert data[..] == all;
    return Slice(data, |all|);
  }

  /** `slices.Clone`: an array of its own. */
  method Clone(s: Slice) returns (t: Slice)
    requires s.Valid()
    ensures t.Valid() && fresh(t.data) && t.Contents() == s.Contents()
  {
    var all := s.data[..s.len];
    var data := new string[|all|](i requires 0 <= i < |all| => all[i]);
    assert data[..] == all;
    return Slice(data, |all|);
  }

  class Request {
    var writer: Writer
    var request: Option<string>
    const handlers: HandlerMap
    var middleware: Slice
    var status: Status

    ghost predicate Valid()
      reads this, middleware.data
    {
      middleware.Valid() && !writer.Raw?
    }

    function View(): Value
      requires Valid()
      reads this, middleware.data, handlers
    {
      Value(writer, request, handlers.internal, middleware.Contents())
    }

    constructor (w: Writer, r: Option<string>)
      ensures Valid() && fresh(middleware.data) && fresh(handlers)
      ensures View() == Value(Synchronized(w), r, map[], []) && status == Status(false, [])
    {
      writer, request := Synchronized(w), r;
      handlers := new HandlerMap();
      var data := new string[0];
      middleware := Slice(data, 0);
      status := Status(false, []);
    }

    method BindWriter(w: Writer)
      requires Valid()
      modifies this`writer
      ensures Valid() && View() == old(View()).(writer := Synchronized(w))
    {
      writer := Synchronized(w);
    }

    method With(ms: seq<string>)
      requires Valid()
      modifies this`middleware, middleware.data
      ensures Valid() && (middleware.data == old(middleware.data) || fresh(middleware.data))
      ensures View() == old(View()).(middleware := old(middleware.Contents()) + ms)
    {
      middleware := Append(middleware, ms);
    }

    method Configure(actions: seq<Action>)
      requires Valid()
      modifies this, middleware.data, handlers
      ensures Valid() && (middleware.data == old(middleware.data) || fresh(middleware.data))
      ensures View() == ActAll(old(View()), actions) && status == old(status)
    {
      assert actions[0..] == actions;
      for i := 0 to |actions|
        invariant Valid() && (middleware.data == old(middleware.data) || fresh(middleware.data))
        invariant ActAll(View(), actions[i..]) == ActAll(old(View()), actions) && status == old(status)
      {
        assert actions[i..][1..] == actions[i + 1..];
        match actions[i]
        case With(ms) => With(ms);
        case Register(key, mode, h) => handlers.AddType(key, h, mode);
        case SetWriter(w) => BindWriter(w);
        case SetRequest(r) => request := r;
      }
    }

    /** Writes the status once, and only with a writer to write it to. */
    method CommitStatus(code: nat) returns (did: bool)
      modifies this`status
      ensures status == Commit(old(status), writer != NoWriter, code)
      ensures did == (status != old(status))
    {
      if status.written || writer == NoWriter { return false; }
      status := Status(true, status.sent + [code]);
      return true;
    }
  }

  class Defaults {
    var requests: seq<Action>
    var middleware: Slice

    ghost predicate Valid()
      reads this, middleware.data
    {
      middleware.Valid()
    }

    function View(): Config
      requires Valid()
      reads this, middleware.data
    {
      Config(middleware.Contents(), requests)
    }

    constructor ()
      ensures Valid() && fresh(middleware.data) && View() == Config([], [])
    {
      requests := [];
      var data := new string[0];
      middleware := Slice(data, 0);
    }

    method SetMiddleware(ms: Slice)
      requires Valid() && ms.Valid()
      modifies this
      ensures Valid() && middleware == ms && View() == old(View()).(middleware := ms.Contents())
    {
      middleware := ms;
    }

    method SetRequestBehaviour(actions: seq<Action>)
      requires Valid()
      modifies this`requests
      ensures Valid() && View() == old(View()).(requests := actions)
    {
      requests := actions;
    }

    /** A new request, seeded; it shares no array with the defaults, which it leaves as they were. */
    method NewRequest(previous: Request?) returns (r: Request)
      requires Valid() && (previous != null ==> previous.Valid())
      ensures fresh(r) && r.Valid() && fresh(r.middleware.data) && fresh(r.handlers)
      ensures r.View() == if previous == null then Seed(View(), NoWriter, None)
                          else Seed(View(), previous.writer, previous.request)
      ensures r.status == Status(false, [])
    {
      r := new Request(NoWriter, None);
      if previous != null {
        r.BindWriter(previous.writer);
        r.request := previous.request;
      }
      var own := Clone(middleware);
      r.middleware := own;
      r.Configure(requests);
    }
  }

  class CallBuilder {
    const defaults: Defaults
    var request: Request

    /** The request's array is nobody else's. */
    ghost predicate Valid()
      reads this, request, request.middleware.data, defaults, defaults.middleware.data
    {
      request.Valid() && defaults.Valid() && request.middleware.data != defaults.middleware.data
    }

    constructor (d: Defaults)
      requires d.Valid()
      ensures Valid() && defaults == d && fresh(request) && fresh(request.middleware.data) && fresh(request.handlers)
      ensures request.View() == MakeAll(d.View(), [])
    {
      defaults := d;
      var r := d.NewRequest(null);
      request := r;
    }

    method SetHTTPBehaviour(actions: seq<Action>)
      requires Valid()
      modifies this
      ensures Valid() && defaults.View() == old(defaults.View())
      ensures fresh(request) && fresh(request.middleware.data) && fresh(request.handlers)
      ensures request.View() == Make(defaults.View(), old(request.View()), Set(actions))
    {
      var r := defaults.NewRequest(request);
      r.Configure(actions);
      request := r;
    }

    method AlterHTTPBehaviour(actions: seq<Action>)
      requires Valid()
      modifies request, request.middleware.data, request.handlers
      ensures Valid() && defaults.View() == old(defaults.View())
      ensures request.middleware.data == old(request.middleware.data) || fresh(request.middleware.data)
      ensures request.View() == Make(defaults.View(), old(request.View()), Alter(actions))
    {
      request.Configure(actions);
    }

    method ForRequestOf(w: Writer, r: Option<string>)
      requires Valid()
      modifies request
      ensures Valid() && defaults.View() == old(defaults.View())
      ensures request.middleware == old(request.middleware)
      ensures request.View() == Make(defaults.View(), old(request.View()), ForRequest(w, r))
    {
      request.BindWriter(w);
      request.request := r;
    }
  }

  // --------------------------------------------------------------- artifacts and islands

  /** One middleware: the islands it puts, and the error it may end with. */
  datatype Effect = Effect(puts: seq<(string, string)>, error: Option<string>)

  function PutAll(islands: map<string, string>, puts: seq<(string, string)>): map<string, string>
    decreases |puts|
  {
    if puts == [] then islands else PutAll(islands[puts[0].0 := puts[0].1], puts[1..])
  }

  /** The islands middleware leaves, run in order to the first error. */
  function Middleware(islands: map<string, string>, effects: seq<Effect>): Result<map<string, string>, string>
    decreases |effects|
  {
    if effects == [] then Success(islands)
    else if effects[0].error.Some? then Failure(effects[0].error.value)
    else Middleware(PutAll(islands, effects[0].puts), effects[1..])
  }

  /** The last put of each key, in this call, or the island it began with. */
  lemma {:induction false} PutAllHolds(islands: map<string, string>, puts: seq<(string, string)>, key: string)
    ensures key in PutAll(islands, puts) <==> key in islands || exists i :: 0 <= i < |puts| && puts[i].0 == key
    ensures key in PutAll(islands, puts) ==>
      (key in islands && PutAll(islands, puts)[key] == islands[key]) || (key, PutAll(islands, puts)[key]) in puts
    decreases |puts|
  {
    if puts != [] {
      PutAllHolds(islands[puts[0].0 := puts[0].1], puts[1..], key);
      assert puts == [puts[0]] + puts[1..];
    }
  }

  predicate WasPut(effects: seq<Effect>, key: string, json: string) {
    exists i :: 0 <= i < |effects| && (key, json) in effects[i].puts
  }

  /** Islands come from this call alone: its own props, or what its own middleware put. */
  lemma {:induction false} IslandsAreThisCalls(islands: map<string, string>, effects: seq<Effect>, key: string)
    ensures var r := Middleware(islands, effects);
      r.Success? && key in r.value ==>
        (key in islands && r.value[key] == islands[key]) || WasPut(effects, key, r.value[key])
    decreases |effects|
  {
    if effects != [] && effects[0].error.None? {
      var next := PutAll(islands, effects[0].puts);
      IslandsAreThisCalls(next, effects[1..], key);
      PutAllHolds(islands, effects[0].puts, key);
      var r := Middleware(islands, effects);
      if r.Success? && key in r.value && WasPut(effects[1..], key, r.value[key]) {
        var i :| 0 <= i < |effects[1..]| && (key, r.value[key]) in effects[1..][i].puts;
        assert (key, r.value[key]) in effects[i + 1].puts;
      }
    }
  }

  /** Everything the middleware puts, in order. */
  function Puts(effects: seq<Effect>): seq<(string, string)> {
    if effects == [] then [] else effects[0].puts + Puts(effects[1..])
  }

  /** The last of the puts of this key puts this. */
  predicate IsLastPut(puts: seq<(string, string)>, key: string, json: string) {
    exists i :: 0 <= i < |puts| && puts[i] == (key, json) && forall j :: i < j < |puts| ==> puts[j].0 != key
  }

  lemma {:induction false} PutAllIff(islands: map<string, string>, puts: seq<(string, string)>, key: string, json: string)
    ensures key in PutAll(islands, puts) && PutAll(islands, puts)[key] == json <==>
      IsLastPut(puts, key, json) ||
      (key in islands && islands[key] == json && forall i :: 0 <= i < |puts| ==> puts[i].0 != key)
    decreases |puts|
  {
    if puts != [] {
      var first, rest := puts[0], puts[1..];
      PutAllIff(islands[first.0 := first.1], rest, key, json);
      assert forall i :: 0 <= i < |rest| ==> puts[i + 1] == rest[i];
      if IsLastPut(rest, key, json) {
        var i :| 0 <= i < |rest| && rest[i] == (key, json) && forall j :: i < j < |rest| ==> rest[j].0 != key;
        assert puts[i + 1] == (key, json) && forall j :: i + 1 < j < |puts| ==> puts[j] == rest[j - 1];
      }
      if IsLastPut(puts, key, json) {
        var i :| 0 <= i < |puts| && puts[i] == (key, json) && forall j :: i < j < |puts| ==> puts[j].0 != key;
        assert i > 0 ==> rest[i - 1] == (key, json);
        assert forall j :: 0 <= j < |rest| ==> rest[j] == puts[j + 1];
      }
      if first == (key, json) && forall i :: 0 <= i < |rest| ==> rest[i].0 != key {
        assert puts[0] == (key, json) && forall j :: 0 < j < |puts| ==> puts[j] == rest[j - 1];
      }
    }
  }

  lemma {:induction false} PutAllAppend(islands: map<string, string>, a: seq<(string, string)>, b: seq<(string, string)>)
    ensures PutAll(islands, a + b) == PutAll(PutAll(islands, a), b)
    decreases |a|
  {
    if a == [] {
      assert a + b == b;
    } else {
      assert (a + b)[1..] == a[1..] + b;
      PutAllAppend(islands[a[0].0 := a[0].1], a[1..], b);
    }
  }

  /**
   Middleware fails with its first error; when there is none, an island is what was put
   last under its key, by whichever of them, or what was there if nothing was.
   */
  lemma {:induction false} MiddlewareIff(islands: map<string, string>, effects: seq<Effect>, key: string, json: string)
    ensures match Middleware(islands, effects)
      case Failure(e) =>
        exists i :: 0 <= i < |effects| && effects[i].error == Some(e) && forall j :: 0 <= j < i ==> effects[j].error.None?
      case Success(held) =>
        (forall i :: 0 <= i < |effects| ==> effects[i].error.None?) &&
        (key in held && held[key] == json <==>
          IsLastPut(Puts(effects), key, json) ||
          (key in islands && islands[key] == json && forall i :: 0 <= i < |Puts(effects)| ==> Puts(effects)[i].0 != key))
    decreases |effects|
  {
    MiddlewareIs(islands, effects);
    if Middleware(islands, effects).Success? { PutAllIff(islands, Puts(effects), key, json); }
  }

  lemma {:induction false} MiddlewareIs(islands: map<string, string>, effects: seq<Effect>)
    ensures match Middleware(islands, effects)
      case Failure(e) =>
        exists i :: 0 <= i < |effects| && effects[i].error == Some(e) && forall j :: 0 <= j < i ==> effects[j].error.None?
      case Success(held) =>
        (forall i :: 0 <= i < |effects| ==> effects[i].error.None?) && held == PutAll(islands, Puts(effects))
    decreases |effects|
  {
    if effects != [] && effects[0].error.None? {
      var rest := effects[1..];
      var now := PutAll(islands, effects[0].puts);
      MiddlewareIs(now, rest);
      PutAllAppend(islands, effects[0].puts, Puts(rest));
      assert forall i :: 0 <= i < |rest| ==> effects[i + 1] == rest[i];
      if Middleware(now, rest).Failure? {
        var e := Middleware(now, rest).error;
        var i :| 0 <= i < |rest| && rest[i].error == Some(e) && forall j :: 0 <= j < i ==> rest[j].error.None?;
        assert effects[i + 1].error == Some(e) && forall j :: 0 < j < i + 1 ==> effects[j] == rest[j - 1];
      }
    }
  }

  /** A map of islands: whoever holds it sees what is put. */
  class Islands {
    var held: map<string, string>

    constructor (first: map<string, string>)
      ensures held == first
    {
      held := first;
    }

    method PutDataIsland(key: string, json: string)
      modifies this
      ensures held == old(held)[key := json]
    {
      held := held[key := json];
    }

    method PutEach(puts: seq<(string, string)>)
      modifies this
      ensures held == PutAll(old(held), puts)
    {
      assert puts[0..] == puts;
      for i := 0 to |puts|
        invariant PutAll(held, puts[i..]) == PutAll(old(held), puts)
      {
        assert puts[i..][1..] == puts[i + 1..];
        PutDataIsland(puts[i].0, puts[i].1);
      }
    }
  }

  /** What is rendered: an artifact all requests for a component share, or the response to one. */
  class Rendered {
    var js: string
    var css: string
    var jsName: string
    var cssName: string
    var html: string
    var islands: Islands?

    constructor (j: string, c: string, jn: string, cn: string)
      ensures js == j && css == c && jsName == jn && cssName == cn && html == "" && islands == null
    {
      js, css, jsName, cssName, html, islands := j, c, jn, cn, "", null;
    }

    /** A copy by value: the islands are the same map. */
    constructor Copy(from: Rendered)
      ensures js == from.js && css == from.css && jsName == from.jsName && cssName == from.cssName
      ensures html == from.html && islands == from.islands
    {
      js, css, jsName, cssName := from.js, from.css, from.jsName, from.cssName;
      html, islands := from.html, from.islands;
    }
  }

  /** The middleware of one request, putting into the islands of one call. */
  method ExecMiddleware(islands: Islands, effects: seq<Effect>) returns (error: Option<string>)
    modifies islands
    ensures match Middleware(old(islands.held), effects)
      case Success(held) => error == None && islands.held == held
      case Failure(e) => error == Some(e)
  {
    assert effects[0..] == effects;
    for i := 0 to |effects|
      invariant Middleware(islands.held, effects[i..]) == Middleware(old(islands.held), effects)
    {
      assert effects[i..][1..] == effects[i + 1..];
      if effects[i].error.Some? { return effects[i].error; }
      islands.PutEach(effects[i].puts);
    }
    return None;
  }

  /**
   A response of its own: the artifact's script and style under their names, and the
   islands of this call in a map nobody else holds. Nothing that was there before is
   written, the artifact and any islands it may hold among it.
   */
  method Respond(artifact: Rendered, root: string, props: string, effects: seq<Effect>, html: string)
    returns (r: Result<Rendered, string>)
    ensures match Middleware(map["props-" + root := props], effects)
      case Failure(e) => r == Failure(e)
      case Success(held) =>
        && r.Success? && fresh(r.value) && r.value.html == html
        && r.value.islands != null && fresh(r.value.islands) && r.value.islands.held == held
        && r.value.js == artifact.js && r.value.css == artifact.css
        && r.value.jsName == artifact.jsName && r.value.cssName == artifact.cssName
  {
    var islands := new Islands(map["props-" + root := props]);
    var error := ExecMiddleware(islands, effects);
    if error.Some? { return Failure(error.value); }
    var resp := new Rendered.Copy(artifact);
    resp.islands := islands;
    resp.html := html;
    return Success(resp);
  }

  /**
   Two renders of one artifact, one after the other: neither sees what the other's
   middleware put, and the artifact ends as it began.
   */
  method RespondTwice(artifact: Rendered, root: string, props: string, effects: seq<Effect>,
                      root': string, props': string, effects': seq<Effect>, html: string)
    returns (first: Result<Rendered, string>, second: Result<Rendered, string>)
    ensures first.Success? && second.Success? ==>
      && first.value.islands != null && second.value.islands != null && first.value.islands != second.value.islands
      && Middleware(map["props-" + root := props], effects) == Success(first.value.islands.held)
      && Middleware(map["props-" + root' := props'], effects') == Success(second.value.islands.held)
  {
    first := Respond(artifact, root, props, effects, html);
    second := Respond(artifact, root', props', effects', html);
  }
}

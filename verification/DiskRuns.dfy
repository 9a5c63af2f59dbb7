/**
 The disk cache over whole sequences of operations: the lazily indexed one answers
 as one that rescans the directory each time, and what that one answers.
 */
module DiskRuns {
  import opened Wrappers
  import opened Caches
  import opened DiskCaching
  import opened DiskIndex

  datatype Operation =
    | Put(key: CacheKey, rendered: Rendered, sources: seq<string>, digests: map<string, string>)
    | Get(key: CacheKey, digests: map<string, string>)
    | Invalidate(component: string)
    | InFile(file: string)

  datatype Answer = Done | Found(rendered: Option<Rendered>) | Removed(count: nat) | Named(components: set<string>)

  // ------------------------------------------- a cache that rescans for every operation

  function DirectoryAfter(stemOf: CacheKey -> string, files: Directory, op: Operation): Directory {
    match op
    case Put(k, r, sources, digests) => Written(files, stemOf(k), ManifestOf(k, r, DiskCaching.Recorded(sources, digests)), r)
    case Invalidate(component) => Cleared(files, component)
    case _ => files
  }

  ghost function AnswerOf(files: Directory, op: Operation): Answer {
    match op
    case Put(_, _, _, _) => Done
    case Get(k, digests) =>
      if stem :| stem in Rescan(files, KeyText(k)) then Found(ReadSlot(files[stem], digests)) else Found(None)
    case Invalidate(component) => Removed(|ListedFor(files, component)|)
    case InFile(file) => Named(ComponentsIn(files, file))
  }

  function ComponentsIn(files: Directory, file: string): set<string> {
    set stem | stem in files && IsListed(files, stem) && IsInFile(files[stem].manifest.value.component, file)
      :: files[stem].manifest.value.component
  }

  function DirectoryAfterAll(stemOf: CacheKey -> string, files: Directory, ops: seq<Operation>): Directory
    decreases |ops|
  {
    if ops == [] then files else DirectoryAfterAll(stemOf, DirectoryAfter(stemOf, files, ops[0]), ops[1..])
  }

  ghost function Answers(stemOf: CacheKey -> string, files: Directory, ops: seq<Operation>): seq<Answer>
    decreases |ops|
  {
    if ops == [] then [] else [AnswerOf(files, ops[0])] + Answers(stemOf, DirectoryAfter(stemOf, files, ops[0]), ops[1..])
  }

  // ------------------------------------------------------------- the indexed one agrees

  lemma InFileIs(files: Directory, file: string, n: string)
    ensures n in ComponentsIn(files, file) <==> IsInFile(n, file) && ListedFor(files, n) != {}
  {
    if IsInFile(n, file) && ListedFor(files, n) != {} {
      var stem :| stem in ListedFor(files, n);
      assert IsListed(files, stem) && files[stem].manifest.value.component == n;
    }
    if n in ComponentsIn(files, file) {
      var stem :| stem in files && IsListed(files, stem) && files[stem].manifest.value.component == n;
      assert stem in ListedFor(files, n);
    }
  }

  method Operate(cache: DiskCache, op: Operation) returns (answer: Answer)
    requires cache.enabled && cache.Valid()
    modifies cache, cache.byComponent
    ensures cache.Valid() && answer == AnswerOf(old(cache.files), op)
    ensures cache.files == DirectoryAfter(cache.stemOf, old(cache.files), op)
  {
    match op
    case Put(k, r, sources, digests) =>
      cache.Put(k, r, sources, digests);
      answer := Done;
    case Get(k, digests) =>
      var found := cache.Get(k, digests);
      answer := Found(found);
    case Invalidate(component) =>
      var count := cache.InvalidateComponent(component);
      answer := Removed(count);
    case InFile(file) =>
      var names := cache.ComponentsInFile(file);
      answer := Named(set n | n in names);
      forall n ensures n in answer.components <==> n in ComponentsIn(cache.files, file) {
        InFileIs(cache.files, file, n);
      }
      assert answer.components == ComponentsIn(cache.files, file);
  }

  /** Whatever is asked of the cache, in whatever order, it answers as the rescanning one. */
  method OperateAll(cache: DiskCache, ops: seq<Operation>) returns (answers: seq<Answer>)
    requires cache.enabled && cache.Valid()
    modifies cache, cache.byComponent
    ensures cache.Valid() && answers == Answers(cache.stemOf, old(cache.files), ops)
    ensures cache.files == DirectoryAfterAll(cache.stemOf, old(cache.files), ops)
  {
    answers := [];
    assert ops[0..] == ops;
    for i := 0 to |ops|
      invariant cache.Valid()
      invariant answers + Answers(cache.stemOf, cache.files, ops[i..]) == Answers(cache.stemOf, old(cache.files), ops)
      invariant DirectoryAfterAll(cache.stemOf, cache.files, ops[i..]) == DirectoryAfterAll(cache.stemOf, old(cache.files), ops)
    {
      ghost var before := cache.files;
      assert ops[i..][1..] == ops[i + 1..];
      var answer := Operate(cache, ops[i]);
      hide DirectoryAfter, AnswerOf;
      assert answers + ([answer] + Answers(cache.stemOf, cache.files, ops[i + 1..]))
          == (answers + [answer]) + Answers(cache.stemOf, cache.files, ops[i + 1..]);
      answers := answers + [answer];
    }
    assert ops[|ops|..] == [] && answers + [] == answers;
  }

  // --------------------------------------------------------------- what it answers

  /** The last put of a key that no invalidation of its component came after. */
  function LastPut(ops: seq<Operation>, k: CacheKey): (put: Option<Operation>)
    ensures put.Some? ==> put.value.Put? && put.value.key == k
  {
    if ops == [] then None
    else
      var last := ops[|ops| - 1];
      if last.Put? && last.key == k then Some(last)
      else if last.Invalidate? && last.component == k.component then None
      else LastPut(ops[..|ops| - 1], k)
  }

  /** Without a style there is no name for one. */
  predicate AreNamed(ops: seq<Operation>) {
    forall i :: 0 <= i < |ops| && ops[i].Put? && ops[i].rendered.css == "" ==> ops[i].rendered.cssName == ""
  }

  /** A key's entry in the directory is what was put, or none is there. */
  ghost predicate IsHeld(stemOf: CacheKey -> string, files: Directory, k: CacheKey, put: Option<Operation>) {
    match put
    case None => Rescan(files, KeyText(k)) == {}
    case Some(op) =>
      && op.Put? && Rescan(files, KeyText(k)) == {stemOf(k)} && stemOf(k) in files
      && forall now :: ReadSlot(files[stemOf(k)], now) == Kept(op, now)
  }

  function Kept(put: Operation, now: map<string, string>): Option<Rendered>
    requires put.Put?
  {
    if Holds(DiskCaching.Recorded(put.sources, put.digests), now) then Some(put.rendered) else None
  }

  lemma {:induction false} DirectoryAppend(stemOf: CacheKey -> string, files: Directory, ops: seq<Operation>, op: Operation)
    ensures DirectoryAfterAll(stemOf, files, ops + [op])
         == DirectoryAfter(stemOf, DirectoryAfterAll(stemOf, files, ops), op)
    decreases |ops|
  {
    hide DirectoryAfter;
    if ops == [] {
      assert ops + [op] == [op] && [op][1..] == [];
    } else {
      assert (ops + [op])[1..] == ops[1..] + [op];
      DirectoryAppend(stemOf, DirectoryAfter(stemOf, files, ops[0]), ops[1..], op);
    }
  }

  lemma HeldAfter(stemOf: CacheKey -> string, files: Directory, op: Operation, k: CacheKey, put: Option<Operation>)
    requires StemsDiffer(stemOf) && WellFiled(stemOf, files) && IsHeld(stemOf, files, k, put)
    requires op.Put? && op.rendered.css == "" ==> op.rendered.cssName == ""
    ensures WellFiled(stemOf, DirectoryAfter(stemOf, files, op))
    ensures IsHeld(stemOf, DirectoryAfter(stemOf, files, op), k,
                   if op.Put? && op.key == k then Some(op)
                   else if op.Invalidate? && op.component == k.component then None
                   else put)
  {
    match op
    case Put(_, _, _, _) => HeldAfterPut(stemOf, files, op, k, put);
    case Invalidate(component) =>
      hide KeyText;
      InvalidateThenGet(stemOf, files, component, k);
      if component != k.component && put.Some? { StaysListed(files, component, k, stemOf(k)); }
    case _ =>
  }

  lemma HeldAfterPut(stemOf: CacheKey -> string, files: Directory, op: Operation, k: CacheKey, put: Option<Operation>)
    requires StemsDiffer(stemOf) && WellFiled(stemOf, files) && IsHeld(stemOf, files, k, put)
    requires op.Put? && (op.rendered.css == "" ==> op.rendered.cssName == "")
    ensures WellFiled(stemOf, DirectoryAfter(stemOf, files, op))
    ensures IsHeld(stemOf, DirectoryAfter(stemOf, files, op), k, if op.key == k then Some(op) else put)
  {
    hide KeyText, WellFiled, StemsDiffer, ReadSlot, Rescan;
    var after := DirectoryAfter(stemOf, files, op);
    PutThenGet(stemOf, files, op.key, op.rendered, op.sources, op.digests, map[], k);
    if op.key == k {
      forall now ensures ReadSlot(after[stemOf(k)], now) == Kept(op, now) {
        PutThenGet(stemOf, files, k, op.rendered, op.sources, op.digests, now, k);
      }
    } else if put.Some? {
      assert stemOf(k) in Rescan(files, KeyText(k));
    }
  }

  lemma StaysListed(files: Directory, component: string, k: CacheKey, stem: string)
    requires stem in Rescan(Cleared(files, component), KeyText(k))
    ensures stem in Cleared(files, component)
  {
  }

  /**
   After any operations on an empty directory, getting a key gives what was last put
   under it, unless its component was invalidated since or a source it recorded no
   longer holds.
   */
  lemma {:induction false} LastPutIsFound(stemOf: CacheKey -> string, ops: seq<Operation>, k: CacheKey, now: map<string, string>)
    requires StemsDiffer(stemOf) && AreNamed(ops)
    ensures AnswerOf(DirectoryAfterAll(stemOf, map[], ops), Get(k, now))
         == Found(if LastPut(ops, k).None? then None else Kept(LastPut(ops, k).value, now))
  {
    HeldAfterAll(stemOf, ops, k);
  }

  lemma {:induction false} HeldAfterAll(stemOf: CacheKey -> string, ops: seq<Operation>, k: CacheKey)
    requires StemsDiffer(stemOf) && AreNamed(ops)
    ensures var files := DirectoryAfterAll(stemOf, map[], ops);
      WellFiled(stemOf, files) && IsHeld(stemOf, files, k, LastPut(ops, k))
  {
    hide StemsDiffer, DirectoryAfter;
    if ops == [] {
      assert Rescan(map[], KeyText(k)) == {};
    } else {
      hide WellFiled, IsHeld;
      var before, op := ops[..|ops| - 1], ops[|ops| - 1];
      assert ops == before + [op];
      HeldAfterAll(stemOf, before, k);
      HeldAfter(stemOf, DirectoryAfterAll(stemOf, map[], before), op, k, LastPut(before, k));
      DirectoryAppend(stemOf, map[], before, op);
    }
  }
}

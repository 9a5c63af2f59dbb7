/**
 internal/collections/setmap.go, and internal/depindex.go built on it.
 */
module Collections {

  /** The set kept under a key; a key without one has none. */
  function Held<K(==), V(==)>(sets: map<K, set<V>>, key: K): set<V> {
    if key in sets then sets[key] else {}
  }

  /** No key keeps an empty set. */
  predicate NoneEmpty<K(==), V(==)>(sets: map<K, set<V>>) {
    forall key :: key in sets ==> sets[key] != {}
  }

  class SetMap<K(==), V(==)> {
    var sets: map<K, set<V>>

    predicate Valid()
      reads this
    {
      NoneEmpty(sets)
    }

    constructor ()
      ensures Valid() && sets == map[]
    {
      sets := map[];
    }

    method Add(key: K, member: V)
      requires Valid()
      modifies this
      ensures Valid()
      ensures sets == old(sets)[key := Held(old(sets), key) + {member}]
    {
      var members := {};
      if key in sets { members := sets[key]; }
      sets := sets[key := members + {member}];
    }

    method Remove(key: K, member: V)
      requires Valid()
      modifies this
      ensures Valid()
      ensures Held(sets, key) == Held(old(sets), key) - {member}
      ensures sets - {key} == old(sets) - {key}
    {
      if key !in sets { return; }
      var members := sets[key] - {member};
      sets := sets[key := members];
      if members == {} { sets := sets - {key}; }
    }

    method Drop(key: K)
      requires Valid()
      modifies this
      ensures Valid() && sets == old(sets) - {key}
    {
      sets := sets - {key};
    }

    /** The members of a key, in the order a map gives its keys. */
    method MembersOf(key: K) returns (out: seq<V>)
      ensures (set v | v in out) == Held(sets, key) && |out| == |Held(sets, key)|
    {
      out := [];
      var left := if key in sets then sets[key] else {};
      while left != {}
        invariant (set v | v in out) + left == Held(sets, key)
        invariant (set v | v in out) !! left
        invariant |out| + |left| == |Held(sets, key)|
        decreases |left|
      {
        var member :| member in left;
        out := out + [member];
        left := left - {member};
      }
    }

    method KeysWhere(pred: K -> bool) returns (out: seq<K>)
      ensures forall key :: key in out <==> key in sets && pred(key)
    {
      out := [];
      var left := sets.Keys;
      while left != {}
        invariant left <= sets.Keys
        invariant forall key :: key in out <==> key in sets && key !in left && pred(key)
        decreases |left|
      {
        var key :| key in left;
        left := left - {key};
        if pred(key) { out := out + [key]; }
      }
    }
  }

  class DependencyIndex {
    const bySource: SetMap<string, string>
    const normalize: string -> string

    /** Components whose bundle reported the source, under whatever spelling of its path. */
    function Dependents(source: string): set<string>
      reads bySource
    {
      Held(bySource.sets, normalize(source))
    }

    predicate Valid()
      reads bySource
    {
      bySource.Valid()
    }

    constructor (normal: string -> string)
      ensures Valid() && fresh(bySource) && bySource.sets == map[] && normalize == normal
    {
      normalize := normal;
      bySource := new SetMap();
    }

    method Record(component: string, sources: seq<string>)
      requires Valid()
      modifies bySource
      ensures Valid()
      ensures forall s :: Dependents(s) == old(Dependents(s)) + if IsAmong(s, sources) then {component} else {}
    {
      for i := 0 to |sources|
        invariant Valid()
        invariant forall s :: Dependents(s) == old(Dependents(s)) + if IsAmong(s, sources[..i]) then {component} else {}
      {
        bySource.Add(normalize(sources[i]), component);
        AmongMore(sources, i);
      }
      assert sources[..|sources|] == sources;
    }

    /** One of the sources has the same path once normalized. */
    predicate IsAmong(source: string, sources: seq<string>) {
      exists i :: 0 <= i < |sources| && normalize(sources[i]) == normalize(source)
    }

    lemma AmongMore(sources: seq<string>, i: nat)
      requires i < |sources|
      ensures forall s :: IsAmong(s, sources[..i + 1]) <==> IsAmong(s, sources[..i]) || normalize(sources[i]) == normalize(s)
    {
      assert forall j :: 0 <= j < i ==> sources[..i + 1][j] == sources[..i][j];
      assert sources[..i + 1][i] == sources[i];
    }

    method DependentsOf(source: string) returns (out: seq<string>)
      ensures (set c | c in out) == Dependents(source)
    {
      out := bySource.MembersOf(normalize(source));
    }
  }
}

/**
 * The target map of mkr.TargetBuild: target records (`BuildTarget`) kept in a
 * name-keyed map. The map's iteration order, which `HashMap` leaves
 * unspecified, is fixed here as insertion order.
 */
module Targets {
  import opened Wrappers

  /** `TargetBuild.DEFAULT_TARGET`, the target run when no argument is given. */
  const DefaultTarget: string := "<root>"

  /**
   * What `execute()` does: list the available targets (the synthesized default
   * target), or run a target method, which completes or throws an exception
   * with the given message.
   */
  datatype Body = ListTargets | RunMethod(failure: Option<string>)

  datatype Target = Target(name: string, deps: seq<string>, body: Body)

  /** A map from target name to target, with its keys in iteration order. */
  datatype Registry = Registry(keys: seq<string>, table: map<string, Target>)

  predicate DistinctKeys(keys: seq<string>) {
    forall i, j :: 0 <= i < j < |keys| ==> keys[i] != keys[j]
  }

  /** The keys list each key of the table once, and every target is filed under its own name. */
  predicate Valid(r: Registry) {
    && DistinctKeys(r.keys)
    && (forall k :: k in r.table ==> k in r.keys)
    && (forall k :: k in r.keys ==> k in r.table)
    && (forall k :: k in r.table ==> r.table[k].name == k)
  }

  function Empty(): (r: Registry)
    ensures Valid(r) && r.table == map[] && r.keys == []
  {
    Registry([], map[])
  }

  /** `map.put(t.name(), t)`, with whether the name was already present (`put` returned non-null). */
  function Put(r: Registry, t: Target): (res: (Registry, bool))
    requires Valid(r)
    ensures Valid(res.0)
    ensures res.0.table == r.table[t.name := t]
    ensures res.1 <==> t.name in r.table
    ensures res.1 ==> res.0.keys == r.keys
    ensures !res.1 ==> res.0.keys == r.keys + [t.name]
  {
    if t.name in r.table then (Registry(r.keys, r.table[t.name := t]), true)
    else (Registry(r.keys + [t.name], r.table[t.name := t]), false)
  }

  /** `map.values()` in iteration order. */
  function Values(r: Registry): (vs: seq<Target>)
    requires Valid(r)
    ensures |vs| == |r.keys|
    ensures forall i :: 0 <= i < |vs| ==> vs[i] == r.table[r.keys[i]]
  {
    ValuesOf(r.table, r.keys)
  }

  function ValuesOf(table: map<string, Target>, keys: seq<string>): (vs: seq<Target>)
    requires forall k :: k in keys ==> k in table
    ensures |vs| == |keys|
    ensures forall i :: 0 <= i < |vs| ==> vs[i] == table[keys[i]]
  {
    if keys == [] then [] else [table[keys[0]]] + ValuesOf(table, keys[1..])
  }

  /** Whether every declared dependency of every target is itself a key. */
  predicate Closed(r: Registry) {
    forall k, d :: k in r.table && d in r.table[k].deps ==> d in r.table
  }
}

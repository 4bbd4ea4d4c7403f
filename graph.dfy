/**
 * The dependency graph of served modules. server/graph.ts is not part of
 * this model; the graph is modelled from what its call sites rely on:
 * `get`, `mark`, the `modules` list and `initialVersion`.
 */
module Graph {
  import opened Wrappers

  /** One module record: its specifier, version, dependency specifiers and inline CSS. */
  datatype Module = Module(specifier: string, version: nat, deps: seq<string>, inlineCSS: Option<string>)

  class DependencyGraph {
    /** The records, keyed by specifier. */
    var modules: map<string, Module>
    /** The version stamped on the graph when it was created. */
    const initialVersion: nat
    /** The last version handed out; every `mark` hands out a larger one. */
    var lastVersion: nat

    ghost predicate Valid()
      reads this
    {
      && initialVersion <= lastVersion
      && forall s :: s in modules ==> modules[s].specifier == s && modules[s].version <= lastVersion
    }

    constructor (initialVersion: nat)
      ensures Valid()
      ensures this.initialVersion == initialVersion && lastVersion == initialVersion
      ensures modules == map[]
    {
      this.initialVersion := initialVersion;
      lastVersion := initialVersion;
      modules := map[];
    }

    /** `graph.get(specifier)`. */
    function Get(specifier: string): (r: Option<Module>)
      reads this
      ensures r.Some? <==> specifier in modules
      ensures r.Some? ==> r.value == modules[specifier]
    {
      if specifier in modules then Some(modules[specifier]) else None
    }

    /**
     * `graph.mark(specifier, {deps, inlineCSS})`: creates or overwrites the
     * record and always gives it a fresh, larger version, even when nothing
     * else changed.
     */
    method Mark(specifier: string, deps: seq<string>, inlineCSS: Option<string>) returns (m: Module)
      requires Valid()
      modifies this
      ensures Valid()
      ensures m.specifier == specifier && m.deps == deps && m.inlineCSS == inlineCSS
      ensures m.version > old(lastVersion) && lastVersion == m.version
      ensures specifier in old(modules) ==> m.version > old(modules)[specifier].version
      ensures modules == old(modules)[specifier := m]
    {
      lastVersion := lastVersion + 1;
      m := Module(specifier, lastVersion, deps, inlineCSS);
      modules := modules[specifier := m];
    }
  }

  /** `mark` followed by `get` gives back what was marked, with a version above every earlier one. */
  method MarkThenGet(g: DependencyGraph, specifier: string, deps: seq<string>, inlineCSS: Option<string>)
    returns (r: Option<Module>)
    requires g.Valid()
    modifies g
    ensures g.Valid()
    ensures r.Some? && r.value.deps == deps && r.value.inlineCSS == inlineCSS
    ensures forall s :: s in old(g.modules) ==> r.value.version > old(g.modules)[s].version
    ensures forall s :: s in old(g.modules) && s != specifier ==> s in g.modules && g.modules[s] == old(g.modules)[s]
  {
    var _ := g.Mark(specifier, deps, inlineCSS);
    r := g.Get(specifier);
  }
}

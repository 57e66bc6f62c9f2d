/** The module loader: the check of the dependencies, and the order in which modules are registered. */
module ModuleLoader {
  import opened Prelude

  /** The enabled modules and what each requires. */
  type Graph = map<string, seq<string>>

  ghost predicate Closed(g: Graph) {
    forall m, d :: m in g && d in g[m] ==> d in g
  }

  ghost predicate Path(g: Graph, p: seq<string>) {
    && (forall i :: 0 <= i < |p| ==> p[i] in g)
    && (forall i :: 0 <= i < |p| - 1 ==> p[i + 1] in g[p[i]])
  }

  /** A cycle through name: a path that leaves name and comes back to it. */
  ghost predicate CycleThrough(g: Graph, name: string) {
    exists p :: |p| > 1 && Path(g, p) && p[0] == p[|p| - 1] == name
  }

  ghost predicate Distinct(s: seq<string>) {
    forall i, j :: 0 <= i < j < |s| ==> s[i] != s[j]
  }

  /** Every module of the list comes after everything it requires. */
  ghost predicate DependenciesFirst(g: Graph, order: seq<string>) {
    forall i, d :: 0 <= i < |order| && order[i] in g && d in g[order[i]] ==> exists j :: 0 <= j < i && order[j] == d
  }

  /** Where order puts a module. */
  ghost predicate AtIndex(order: seq<string>, i: nat, name: string) {
    i < |order| && order[i] == name
  }

  /** A list with dependencies first and a cycle exclude each other. */
  lemma OrderedMeansAcyclic(g: Graph, order: seq<string>, name: string)
    requires Distinct(order) && DependenciesFirst(g, order) && (forall m :: m in g ==> m in order)
    ensures !CycleThrough(g, name)
  {
    if CycleThrough(g, name) {
      var p :| |p| > 1 && Path(g, p) && p[0] == p[|p| - 1] == name;
      assert name in g && name in order;
      var i: nat :| i < |order| && order[i] == name;
      var j := Descends(g, order, p, i);
    }
  }

  /** Along a path the positions in the list go down. */
  lemma {:induction false} Descends(g: Graph, order: seq<string>, p: seq<string>, i: nat) returns (j: nat)
    requires Distinct(order) && DependenciesFirst(g, order) && |p| > 1 && Path(g, p) && AtIndex(order, i, p[0])
    ensures AtIndex(order, j, p[|p| - 1]) && j < i
  {
    assert p[1] in g[p[0]];
    var k :| 0 <= k < i && order[k] == p[1];
    if |p| == 2 {
      j := k;
    } else {
      j := Descends(g, order, p[1..], k);
    }
  }

  datatype Error =
    | ForcedOff(moduleName: string)
    | Missing(moduleName: string, dependency: string)
    | Cycle(moduleName: string)
  datatype Result<T> = Ok(value: T) | Err(error: Error)

  class TopoSort {
    const modules: Graph
    var visited: set<string>
    var visiting: set<string>
    var result: seq<string>

    constructor (modules: Graph)
      ensures this.modules == modules && visited == {} && visiting == {} && result == []
    {
      this.modules, visited, visiting, result := modules, {}, {}, [];
    }

    /** What is between two visits: the result is the visited modules, each once and after what it requires. */
    ghost predicate Valid()
      reads this
    {
      && visited <= modules.Keys && visiting <= modules.Keys && visited !! visiting
      && Distinct(result) && DependenciesFirst(modules, result)
      && forall m :: m in result <==> m in visited
    }

    /** trail is the chain of modules being visited: each requires the next, the last one requires name. */
    ghost predicate OnTrail(trail: seq<string>, name: string)
      reads this
    {
      && Path(modules, trail) && (forall m :: m in trail <==> m in visiting)
      && (trail != [] ==> name in modules[trail[|trail| - 1]])
    }

    method Visit(name: string, ghost trail: seq<string>) returns (r: Result<()>)
      requires Closed(modules) && name in modules && Valid() && OnTrail(trail, name)
      modifies this
      ensures r.Ok? ==> Valid() && visiting == old(visiting) && old(visited) <= visited && name in visited
      ensures r.Ok? ==> old(result) <= result
      ensures r.Err? ==> r.error.Cycle? && CycleThrough(modules, r.error.moduleName)
      decreases modules.Keys - visiting
    {
      if name in visited {
        return Ok(());
      }
      if name in visiting {
        CycleOnTrail(modules, trail, name);
        return Err(Cycle(name));
      }
      visiting := visiting + {name};
      ghost var trail' := trail + [name];
      var deps := modules[name];
      for i := 0 to |deps|
        invariant Valid() && visiting == old(visiting) + {name} && old(visited) <= visited && old(result) <= result
        invariant name !in visited
        invariant forall d :: d in deps[..i] ==> d in visited
      {
        r := Visit(deps[i], trail');
        if r.Err? {
          return;
        }
        assert deps[..i + 1] == deps[..i] + [deps[i]];
      }
      visiting := visiting - {name};
      visited := visited + {name};
      AppendLast(modules, result, name);
      result := result + [name];
      return Ok(());
    }

    /**
     * keys enumerates the modules. All of them in an order where each comes after what it
     * requires, or a module on a cycle; and no order when there is a cycle at all.
     */
    method Sort(keys: seq<string>) returns (r: Result<seq<string>>)
      requires Closed(modules) && Valid() && visiting == {} && visited == {}
      requires Distinct(keys) && forall m :: m in keys <==> m in modules
      modifies this
      ensures r.Ok? ==> Distinct(r.value) && DependenciesFirst(modules, r.value)
      ensures r.Ok? ==> forall m :: m in r.value <==> m in modules
      ensures r.Err? ==> r.error.Cycle? && CycleThrough(modules, r.error.moduleName)
      ensures r.Err? <==> exists m :: CycleThrough(modules, m)
    {
      for i := 0 to |keys|
        invariant Valid() && visiting == {} && forall m :: m in keys[..i] ==> m in visited
      {
        var v := Visit(keys[i], []);
        if v.Err? {
          return Err(v.error);
        }
        assert keys[..i + 1] == keys[..i] + [keys[i]];
      }
      assert keys[..|keys|] == keys;
      forall m ensures !CycleThrough(modules, m) {
        OrderedMeansAcyclic(modules, result, m);
      }
      return Ok(result);
    }
  }

  lemma AppendLast(g: Graph, order: seq<string>, name: string)
    requires Distinct(order) && DependenciesFirst(g, order) && name !in order && name in g
    requires forall d :: d in g[name] ==> d in order
    ensures Distinct(order + [name]) && DependenciesFirst(g, order + [name])
  {
    var next := order + [name];
    forall i, d | 0 <= i < |next| && next[i] in g && d in g[next[i]]
      ensures exists j :: 0 <= j < i && next[j] == d
    {
      if i < |order| {
        var j :| 0 <= j < i && order[j] == d;
        assert next[j] == d;
      } else {
        var j :| 0 <= j < |order| && order[j] == d;
        assert next[j] == d;
      }
    }
  }

  lemma CycleOnTrail(g: Graph, trail: seq<string>, name: string)
    requires Path(g, trail) && name in trail && name in g && trail != [] && name in g[trail[|trail| - 1]]
    ensures CycleThrough(g, name)
  {
    var i :| 0 <= i < |trail| && trail[i] == name;
    var p := trail[i..] + [name];
    assert Path(g, p) && p[0] == p[|p| - 1] == name;
  }

  /** The dependency check: every required module is enabled, or the first pair that is not. */
  method CheckDependencies(modules: Graph, keys: seq<string>) returns (r: Result<()>)
    requires forall m :: m in keys <==> m in modules
    ensures r.Ok? <==> Closed(modules)
    ensures r.Err? ==> r.error.Missing? && r.error.moduleName in modules &&
                       r.error.dependency in modules[r.error.moduleName] && r.error.dependency !in modules
  {
    for i := 0 to |keys|
      invariant forall k, d :: 0 <= k < i && d in modules[keys[k]] ==> d in modules
    {
      var deps := modules[keys[i]];
      for j := 0 to |deps|
        invariant forall d :: d in deps[..j] ==> d in modules
      {
        if deps[j] !in modules {
          return Err(Missing(keys[i], deps[j]));
        }
      }
      assert deps[..|deps|] == deps;
    }
    return Ok(());
  }

  const FORCED_ON := ["core"]

  /** What loadModules registers, in order: it succeeds exactly when that is possible. */
  method LoadModules(config: map<string, bool>, requirements: map<string, seq<string>>, keys: seq<string>)
    returns (r: Result<seq<string>>)
    requires config.Keys <= requirements.Keys
    requires Distinct(keys) && forall m :: m in keys <==> m in config && config[m]
    ensures var enabled := map m | m in config && config[m] :: requirements[m];
            && (r.Ok? <==> "core" in enabled && Closed(enabled) && !exists m :: CycleThrough(enabled, m))
            && (r.Ok? ==> Distinct(r.value) && DependenciesFirst(enabled, r.value))
            && (r.Ok? ==> forall m :: m in r.value <==> m in enabled)
            && (r == Err(ForcedOff("core")) <==> "core" !in enabled)
            && (r.Err? ==>
                  match r.error
                  case ForcedOff(m) => m == "core"
                  case Missing(m, d) => m in enabled && d in enabled[m] && d !in enabled
                  case Cycle(m) => CycleThrough(enabled, m) && Closed(enabled))
  {
    var enabled := map m | m in config && config[m] :: requirements[m];
    for i := 0 to |FORCED_ON|
      invariant forall k :: 0 <= k < i ==> FORCED_ON[k] in enabled
    {
      if FORCED_ON[i] !in keys {
        return Err(ForcedOff(FORCED_ON[i]));
      }
    }
    assert FORCED_ON[0] == "core";
    var checked := CheckDependencies(enabled, keys);
    if checked.Err? {
      return Err(checked.error);
    }
    var sorter := new TopoSort(enabled);
    r := sorter.Sort(keys);
  }
}

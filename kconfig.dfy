/** The dependency closure of `KconfigAnalyzer.get_all_required_configs`:
    every CONFIG a patch needs, with the CONFIGs those depend on, and so on. */
module Kconfig {

  /** What `analyze_config_dependencies({s})` gives for each symbol `s`: the
      CONFIG names in its `depends on` and in the conditions of its
      `select`s. A symbol the map does not hold has none (the analysis found
      no Kconfig entry for it, or failed). */
  type Deps = map<string, set<string>>

  function DepsOf(deps: Deps, s: string): set<string> {
    if s in deps then deps[s] else {}
  }

  /** A set holds the dependencies of each of its members. */
  ghost predicate Closed(deps: Deps, c: set<string>) {
    forall s :: s in c ==> DepsOf(deps, s) <= c
  }

  /** A finite set that holds the input and is closed under the
      dependencies: the input, the symbols the map describes and the
      symbols it names. The worklist never leaves it. */
  lemma Universe(deps: Deps, start: set<string>) returns (u: set<string>)
    ensures start <= u
    ensures forall s :: s in u ==> DepsOf(deps, s) <= u
  {
    u := start + deps.Keys + (set s, d | s in deps && d in deps[s] :: d);
  }

  /** `get_all_required_configs`: a worklist of symbols still to look at,
      the symbols already looked at, and everything found so far. Each
      symbol popped is looked at once; a dependency not yet required is
      added to both the result and the worklist. The result holds the
      input, is closed under the dependencies, and is contained in every
      other closed set that holds the input. */
  method GetAllRequiredConfigs(deps: Deps, patchConfigs: set<string>) returns (required: set<string>)
    ensures patchConfigs <= required
    ensures Closed(deps, required)
    ensures forall c: set<string> {:trigger Closed(deps, c)} :: patchConfigs <= c && Closed(deps, c) ==> required <= c
  {
    ghost var u := Universe(deps, patchConfigs);
    required := patchConfigs;
    var toProcess := patchConfigs;
    var visited: set<string> := {};
    while toProcess != {}
      invariant required == visited + toProcess
      invariant patchConfigs <= required <= u
      invariant forall s :: s in visited ==> DepsOf(deps, s) <= required
      invariant forall c: set<string> {:trigger Closed(deps, c)} :: patchConfigs <= c && Closed(deps, c) ==> required <= c
      decreases |u - visited|, |toProcess|
    {
      required, toProcess, visited := PopOne(deps, patchConfigs, u, required, toProcess, visited);
    }
  }

  /** One turn of the worklist loop: a symbol is popped, and unless it was
      looked at before, its dependencies are added. */
  method PopOne(deps: Deps, patchConfigs: set<string>, ghost u: set<string>,
                required0: set<string>, toProcess0: set<string>, visited0: set<string>)
    returns (required: set<string>, toProcess: set<string>, visited: set<string>)
    requires toProcess0 != {} && required0 == visited0 + toProcess0
    requires patchConfigs <= required0 <= u && forall s :: s in u ==> DepsOf(deps, s) <= u
    requires forall s :: s in visited0 ==> DepsOf(deps, s) <= required0
    requires forall c: set<string> {:trigger Closed(deps, c)} :: patchConfigs <= c && Closed(deps, c) ==> required0 <= c
    ensures required == visited + toProcess
    ensures patchConfigs <= required <= u
    ensures forall s :: s in visited ==> DepsOf(deps, s) <= required
    ensures forall c: set<string> {:trigger Closed(deps, c)} :: patchConfigs <= c && Closed(deps, c) ==> required <= c
    ensures |u - visited| < |u - visited0| || (visited == visited0 && |toProcess| < |toProcess0|)
  {
    var current :| current in toProcess0;
    toProcess := toProcess0 - {current};
    if current in visited0 {
      return required0, toProcess, visited0;
    }
    assert u - (visited0 + {current}) == (u - visited0) - {current};
    visited := visited0 + {current};
    required, toProcess := AddDeps(deps, patchConfigs, u, current, required0, toProcess, visited);
  }

  /** The inner loops of `get_all_required_configs` over the dependencies of
      `current`. */
  method AddDeps(deps: Deps, patchConfigs: set<string>, ghost u: set<string>, current: string,
                 required0: set<string>, toProcess0: set<string>, ghost visited: set<string>)
    returns (required: set<string>, toProcess: set<string>)
    requires current in visited && required0 == visited + toProcess0
    requires patchConfigs <= required0 <= u && forall s :: s in u ==> DepsOf(deps, s) <= u
    requires forall s :: s in visited - {current} ==> DepsOf(deps, s) <= required0
    requires forall c: set<string> {:trigger Closed(deps, c)} :: patchConfigs <= c && Closed(deps, c) ==> required0 <= c
    ensures required == visited + toProcess && toProcess0 <= toProcess
    ensures patchConfigs <= required <= u
    ensures forall s :: s in visited ==> DepsOf(deps, s) <= required
    ensures forall c: set<string> {:trigger Closed(deps, c)} :: patchConfigs <= c && Closed(deps, c) ==> required <= c
  {
    required, toProcess := required0, toProcess0;
    var todo := DepsOf(deps, current);
    while todo != {}
      invariant todo <= DepsOf(deps, current)
      invariant required == visited + toProcess && toProcess0 <= toProcess
      invariant required0 <= required <= u && DepsOf(deps, current) - todo <= required
      invariant forall c: set<string> {:trigger Closed(deps, c)} :: patchConfigs <= c && Closed(deps, c) ==> required <= c
      decreases |todo|
    {
      var dep :| dep in todo;
      if dep !in required {
        forall c: set<string> | patchConfigs <= c && Closed(deps, c)
          ensures dep in c
        {
          assert current in c;
        }
        required := required + {dep};
        toProcess := toProcess + {dep};
      }
      todo := todo - {dep};
    }
  }
}

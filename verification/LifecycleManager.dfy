/** The lifecycle manager object. */
module LifecycleManager {
  import opened Wrappers
  import opened Lexical
  import opened Lifecycle
  import Kahn

  // ----- the fallback sort -----

  /** Requirements, with repetitions, of one plugin: the first `i` of Requires and the first `j` of After. */
  function Edges(plugins: Plugins, info: Info, i: nat, j: nat): seq<string>
    requires i <= |info.manifest.required| && j <= |info.manifest.after|
  {
    Parsed(info.manifest.required[..i]) + Loaded(plugins, Parsed(info.manifest.after[..j]))
  }

  function Parsed(deps: seq<string>): seq<string> {
    if deps == [] then [] else
      var front := Parsed(deps[..|deps| - 1]);
      match ParseDependency(deps[|deps| - 1])
      case Some(n) => front + [n]
      case None => front
  }

  function AllEdges(plugins: Plugins, info: Info): seq<string> {
    Edges(plugins, info, |info.manifest.required|, |info.manifest.after|)
  }

  ghost function MultiGraph(plugins: Plugins): Kahn.Multigraph {
    map n | n in plugins :: AllEdges(plugins, plugins[n])
  }

  lemma {:induction false} ParsedElems(deps: seq<string>)
    ensures Elems(Parsed(deps)) == Named(deps)
  {
    hide ParseDependency;
    if deps != [] {
      var n := |deps| - 1;
      ParsedElems(deps[..n]);
      assert deps == deps[..n] + [deps[n]];
      forall x ensures x in Named(deps) <==> x in Named(deps[..n]) || ParseDependency(deps[n]) == Some(x) {}
    }
  }

  lemma SimpleIsPluginGraph(plugins: Plugins)
    ensures Kahn.Simple(MultiGraph(plugins)) == PluginGraph(plugins)
  {
    hide ParseDependency, Named, Parsed, Loaded;
    forall n | n in plugins ensures Elems(AllEdges(plugins, plugins[n])) == PluginGraph(plugins)[n] {
      var m := plugins[n].manifest;
      assert m.required[..|m.required|] == m.required && m.after[..|m.after|] == m.after;
      ParsedElems(m.required);
      ParsedElems(m.after);
      LoadedElems(plugins, Parsed(m.after));
      var a, b := Parsed(m.required), Loaded(plugins, Parsed(m.after));
      assert Elems(a + b) == Elems(a) + Elems(b);
    }
  }

  lemma EdgesRequired(plugins: Plugins, info: Info, i: nat)
    requires i < |info.manifest.required|
    ensures Edges(plugins, info, i + 1, 0)
            == match ParseDependency(info.manifest.required[i])
               case Some(d) => Edges(plugins, info, i, 0) + [d]
               case None => Edges(plugins, info, i, 0)
  {
    hide ParseDependency;
    var r := info.manifest.required;
    assert r[..i + 1][..i] == r[..i];
    assert info.manifest.after[..0] == [];
  }

  lemma EdgesAfter(plugins: Plugins, info: Info, j: nat)
    requires j < |info.manifest.after|
    ensures var n := |info.manifest.required|;
            Edges(plugins, info, n, j + 1)
            == match ParseDependency(info.manifest.after[j])
               case Some(d) => if d in plugins then Edges(plugins, info, n, j) + [d] else Edges(plugins, info, n, j)
               case None => Edges(plugins, info, n, j)
  {
    hide ParseDependency;
    var a := info.manifest.after;
    assert a[..j + 1][..j] == a[..j];
  }

  /** Records one plugin's Requires and After; stops at a requirement that is not loaded. */
  method AddPlugin(plugins: Plugins, name: string, g0: Kahn.Multigraph, d0: map<string, int>, ghost deps: Kahn.Multigraph)
    returns (missing: Option<string>, graph: Kahn.Multigraph, inDegree: map<string, int>)
    requires name in plugins && name !in deps && Kahn.Records(g0, d0, deps)
    ensures missing.Some? ==> missing.value in Needs(plugins[name]) && missing.value !in plugins
    ensures missing.None? ==>
              && Kahn.Records(graph, inDegree, deps[name := AllEdges(plugins, plugins[name])])
              && Needs(plugins[name]) <= plugins.Keys
  {
    hide ParseDependency, Kahn.Records, Parsed, Edges, Kahn.Adjacent, Named;
    missing := None;
    graph, inDegree := g0, d0;
    var info := plugins[name];
    Kahn.RecordNode(graph, inDegree, deps, name);
    Unrecorded(deps, inDegree, graph, name);
    NoEdges(plugins, info);
    inDegree := inDegree[name := 0];
    var required := info.manifest.required;
    for i := 0 to |required|
      invariant name in inDegree
      invariant Kahn.Records(graph, inDegree, deps[name := Edges(plugins, info, i, 0)])
      invariant forall d :: d in required[..i] && ParseDependency(d).Some? ==> ParseDependency(d).value in plugins
    {
      EdgesRequired(plugins, info, i);
      assert required[..i + 1] == required[..i] + [required[i]];
      var dep := ParseDependency(required[i]);
      if dep.None? { continue; }
      if dep.value !in plugins {
        NamedMember(required, required[i]);
        missing := dep;
        return;
      }
      var now := deps[name := Edges(plugins, info, i, 0)];
      Kahn.RecordEdge(graph, inDegree, now, name, dep.value);
      assert now[name := now[name] + [dep.value]] == deps[name := Edges(plugins, info, i + 1, 0)];
      graph := graph[dep.value := Kahn.Adjacent(graph, dep.value) + [name]];
      inDegree := inDegree[name := inDegree[name] + 1];
    }
    assert required[..|required|] == required;
    NamedWithin(required, plugins.Keys);
    var after := info.manifest.after;
    for j := 0 to |after|
      invariant name in inDegree
      invariant Kahn.Records(graph, inDegree, deps[name := Edges(plugins, info, |required|, j)])
    {
      EdgesAfter(plugins, info, j);
      var dep := ParseDependency(after[j]);
      if dep.None? { continue; }
      if dep.value !in plugins { continue; }
      var now := deps[name := Edges(plugins, info, |required|, j)];
      Kahn.RecordEdge(graph, inDegree, now, name, dep.value);
      assert now[name := now[name] + [dep.value]] == deps[name := Edges(plugins, info, |required|, j + 1)];
      graph := graph[dep.value := Kahn.Adjacent(graph, dep.value) + [name]];
      inDegree := inDegree[name := inDegree[name] + 1];
    }
  }

  lemma Unrecorded(deps: Kahn.Multigraph, inDegree: map<string, int>, graph: Kahn.Multigraph, name: string)
    requires name !in deps && Kahn.Records(graph, inDegree, deps)
    ensures name !in inDegree && Kahn.Adjacent(deps, name) == []
  {}

  lemma NoEdges(plugins: Plugins, info: Info)
    ensures Edges(plugins, info, 0, 0) == []
  {
    assert info.manifest.required[..0] == [] && info.manifest.after[..0] == [];
  }

  lemma NamedMember(deps: seq<string>, d: string)
    requires d in deps && ParseDependency(d).Some?
    ensures ParseDependency(d).value in Named(deps)
  {}

  lemma NamedWithin(deps: seq<string>, s: set<string>)
    requires forall d :: d in deps && ParseDependency(d).Some? ==> ParseDependency(d).value in s
    ensures Named(deps) <= s
  {}

  lemma LeftOver(plugins: Plugins, left: map<string, int>)
    requires left.Keys == plugins.Keys
    requires forall n :: n in left ==> (left[n] > 0 <==> n !in Kahn.Order(PluginGraph(plugins)))
    ensures (set n | n in left && left[n] > 0) == plugins.Keys - Elems(Kahn.Order(PluginGraph(plugins)))
  {}

  /** Records every plugin, met in whatever order the map is ranged over. */
  method BuildGraph(plugins: Plugins)
    returns (missing: Option<OrderError>, graph: Kahn.Multigraph, inDegree: map<string, int>)
    ensures missing.Some? ==> BuiltOrder(plugins, None, Failure(missing.value))
    ensures missing.None? ==> RequirementsLoaded(plugins) && Kahn.Records(graph, inDegree, MultiGraph(plugins))
  {
    hide ParseDependency, Kahn.Records, AllEdges, PluginGraph, Kahn.Order, Kahn.Mirrors, Named, Distinct;
    graph, inDegree := map[], map[];
    ghost var deps: Kahn.Multigraph := map[];
    Kahn.NothingRecorded();
    var rest := plugins.Keys;
    while rest != {}
      invariant rest <= plugins.Keys && deps.Keys == plugins.Keys - rest
      invariant Kahn.Records(graph, inDegree, deps)
      invariant forall n :: n in deps ==> deps[n] == AllEdges(plugins, plugins[n]) && Needs(plugins[n]) <= plugins.Keys
      decreases rest
    {
      var name :| name in rest;
      rest := rest - {name};
      var dependency;
      dependency, graph, inDegree := AddPlugin(plugins, name, graph, inDegree, deps);
      if dependency.Some? {
        missing := Some(Missing(name, dependency.value));
        return;
      }
      deps := deps[name := AllEdges(plugins, plugins[name])];
    }
    assert deps == MultiGraph(plugins);
    missing := None;
  }

  /** The manager's own topological sort, used when there is no cross-type resolver. */
  method FallbackOrder(plugins: Plugins) returns (result: Result<seq<string>, OrderError>)
    ensures BuiltOrder(plugins, None, result)
  {
    hide Kahn.Records, MultiGraph, PluginGraph, RequirementsLoaded, Needs, Kahn.Order, Kahn.Mirrors, Kahn.Counts, Distinct;
    var missing, graph, inDegree := BuildGraph(plugins);
    if missing.Some? {
      return Failure(missing.value);
    }
    ghost var deps := MultiGraph(plugins);
    Kahn.RecordsCount(graph, inDegree, deps);
    SimpleIsPluginGraph(plugins);
    MultiGraphKeys(plugins);
    var order, left := Kahn.Drain(graph, inDegree, deps);
    if |order| != |plugins| {
      var cycle := Kahn.ZeroDegree(left, true);
      LeftOver(plugins, left);
      return Failure(Cycle(cycle));
    }
    return Success(order);
  }

  lemma MultiGraphKeys(plugins: Plugins)
    ensures MultiGraph(plugins).Keys == plugins.Keys
  {}

  /** The resolver's order restricted to loaded plugins, then the loaded plugins it does not mention. */
  method ResolvedOrder(plugins: Plugins, names: seq<string>) returns (order: seq<string>)
    ensures BuiltOrder(plugins, Some(Success(names)), Success(order))
  {
    var filtered: seq<string> := [];
    for i := 0 to |names|
      invariant filtered == Loaded(plugins, names[..i])
    {
      assert names[..i + 1][..i] == names[..i];
      if names[i] in plugins {
        filtered := filtered + [names[i]];
      }
    }
    assert names[..|names|] == names;
    LoadedElems(plugins, names);
    var tail: seq<string> := [];
    var rest := plugins.Keys;
    while rest != {}
      invariant rest <= plugins.Keys && Distinct(tail)
      invariant Elems(tail) == plugins.Keys - rest - Elems(names)
      decreases rest
    {
      var name :| name in rest;
      rest := rest - {name};
      assert name in filtered <==> name in Elems(filtered);
      if name !in filtered {
        assert name !in Elems(tail);
        assert Elems(tail + [name]) == Elems(tail) + {name};
        tail := tail + [name];
      }
    }
    order := filtered + tail;
    assert order[..|filtered|] == filtered && order[|filtered|..] == tail;
  }

  // ----- the manager -----

  datatype StartResult = StartedAll | FailedToStart(names: seq<string>) | NoOrder(error: OrderError)

  datatype StopResult = StoppedAll | StopErrors(names: seq<string>) | StopPanicked

  /** A call on a plugin object. */
  datatype Call = InitCall(name: string) | StartCall(name: string) | StopCall(name: string)

  function Inits(names: seq<string>): (calls: seq<Call>)
    ensures |calls| == |names|
  {
    seq(|names|, i requires 0 <= i < |names| => InitCall(names[i]))
  }

  function Starts(names: seq<string>): (calls: seq<Call>)
    ensures |calls| == |names|
  {
    seq(|names|, i requires 0 <= i < |names| => StartCall(names[i]))
  }

  function Stops(names: seq<string>): (calls: seq<Call>)
    ensures |calls| == |names|
  {
    seq(|names|, i requires 0 <= i < |names| => StopCall(names[i]))
  }

  /** One step of a phase makes at most one call. */
  lemma OneMoreCall(log: seq<Call>, calls: seq<string>, more: seq<string>, name: string)
    requires more == calls || more == calls + [name]
    ensures Inits(more) == Inits(calls) + (if more == calls then [] else [InitCall(name)])
    ensures Starts(more) == Starts(calls) + (if more == calls then [] else [StartCall(name)])
    ensures Stops(more) == Stops(calls) + (if more == calls then [] else [StopCall(name)])
    ensures log + Inits(more) == log + Inits(calls) + (if more == calls then [] else [InitCall(name)])
    ensures log + Starts(more) == log + Starts(calls) + (if more == calls then [] else [StartCall(name)])
    ensures log + Stops(more) == log + Stops(calls) + (if more == calls then [] else [StopCall(name)])
  {}

  lemma StepCalls(p: Phase, r: StopRun, name: string, ok: bool)
    ensures InitOne(p, name, ok).calls == p.calls || InitOne(p, name, ok).calls == p.calls + [name]
    ensures StartOne(p, name, ok).calls == p.calls || StartOne(p, name, ok).calls == p.calls + [name]
    ensures StopOne(r, name, ok).calls == r.calls || StopOne(r, name, ok).calls == r.calls + [name]
  {}

  class ManagerImpl {
    var plugins: Plugins
    var order: seq<string>
    /** The calls made on plugin objects so far. */
    ghost var log: seq<Call>

    /** Entries without a plugin object are those that failed to load. */
    predicate Valid()
      reads this
    {
      forall n :: n in plugins && !plugins[n].present ==> plugins[n].state == Failed
    }

    constructor ()
      ensures Valid() && plugins == map[] && order == [] && log == []
    {
      plugins := map[];
      order := [];
      log := [];
    }

    method CallInit(name: string, ok: bool) returns (answer: bool)
      modifies `log
      ensures answer == ok && log == old(log) + [InitCall(name)]
    {
      log := log + [InitCall(name)];
      return ok;
    }

    method CallStart(name: string, ok: bool) returns (answer: bool)
      modifies `log
      ensures answer == ok && log == old(log) + [StartCall(name)]
    {
      log := log + [StartCall(name)];
      return ok;
    }

    method CallStop(name: string, ok: bool) returns (answer: bool)
      modifies `log
      ensures answer == ok && log == old(log) + [StopCall(name)]
    {
      log := log + [StopCall(name)];
      return ok;
    }

    /** Init, then Start; tells which of the two failed. */
    method StartNow(name: string, initOk: bool, startOk: bool) returns (error: Reason)
      modifies `log
      ensures error == if !initOk then InitFailed else if !startOk then StartFailed else NoError
      ensures log == old(log) + if initOk then [InitCall(name), StartCall(name)] else [InitCall(name)]
    {
      var initialised := CallInit(name, initOk);
      if !initialised { return InitFailed; }
      var started := CallStart(name, startOk);
      return if started then NoError else StartFailed;
    }

    method SetState(name: string, state: PluginState)
      requires name in plugins
      modifies `plugins
      ensures plugins == old(plugins)[name := old(plugins)[name].(state := state)]
    {
      plugins := plugins[name := plugins[name].(state := state)];
    }

    method Fail(name: string, reason: Reason)
      requires name in plugins
      modifies `plugins
      ensures plugins == old(plugins)[name := Blame(old(plugins)[name], reason)]
    {
      SetState(name, Failed);
      plugins := plugins[name := plugins[name].(reason := reason)];
    }

    method LoadAll(entries: seq<Entry>) returns (ok: bool)
      requires Valid()
      modifies `plugins
      ensures Valid()
      ensures plugins == Lifecycle.LoadAll(old(plugins), entries)
      ensures ok <==> forall e :: e in entries ==> e.enabled.Some?
    {
      for i := 0 to |entries|
        invariant Valid()
        invariant Lifecycle.LoadAll(old(plugins), entries) == Lifecycle.LoadAll(plugins, entries[i..])
        invariant forall e :: e in entries[..i] ==> e.enabled.Some?
      {
        var e := entries[i];
        assert entries[i..][1..] == entries[i + 1..];
        assert entries[..i + 1] == entries[..i] + [e];
        if e.enabled.None? { return false; }
        if !e.enabled.value { continue; }
        var name := e.manifest.name;
        if name in plugins { continue; }
        if !e.loads {
          if !Core(e.manifest.engine) { continue; }
          plugins := plugins[name := Info(false, e.manifest, Failed, LoadFailed)];
          continue;
        }
        plugins := plugins[name := Info(true, e.manifest, Registered, NoError)];
      }
      assert entries[..|entries|] == entries;
      return true;
    }

    method BuildStartupOrder(resolver: Option<Result<seq<string>, ()>>) returns (result: Result<seq<string>, OrderError>)
      ensures BuiltOrder(plugins, resolver, result)
    {
      match resolver
      case Some(Failure(_)) => result := Failure(ResolverFailed);
      case Some(Success(names)) =>
        var o := ResolvedOrder(plugins, names);
        result := Success(o);
      case None => result := FallbackOrder(plugins);
    }

    method HasFailedDependencies(info: Info, failed: seq<string>) returns (found: bool)
      ensures found == HasFailed(info, failed)
    {
      hide DepName;
      var required := info.manifest.required;
      for i := 0 to |required|
        invariant forall d :: d in required[..i] ==> DepName(d) !in failed
      {
        var depName := DepName(required[i]);
        assert required[..i + 1] == required[..i] + [required[i]];
        for j := 0 to |failed|
          invariant depName !in failed[..j]
        {
          assert failed[..j + 1] == failed[..j] + [failed[j]];
          if failed[j] == depName {
            assert required[i] in required;
            return true;
          }
        }
        assert failed[..|failed|] == failed;
      }
      assert required[..|required|] == required;
      return false;
    }

    /** Phase 1 on one plugin of the order. */
    method InitPlugin(name: string, failed: seq<string>, ok: bool) returns (failed': seq<string>)
      requires Valid()
      modifies `plugins, `log
      ensures Valid()
      ensures forall calls :: var p := InitOne(Phase(old(plugins), failed, calls), name, ok);
                && plugins == p.plugins && failed' == p.failed
                && log == old(log) + if p.calls == calls then [] else [InitCall(name)]
    {
      failed' := failed;
      if name !in plugins { return; }
      if !CanTransition(plugins[name].state, Resolved) {
        if plugins[name].state == Failed {
          failed' := failed + [name];
        }
        return;
      }
      SetState(name, Resolved);
      var blocked := HasFailedDependencies(plugins[name], failed);
      if blocked {
        Fail(name, DependencyFailed);
        failed' := failed + [name];
        return;
      }
      assert CanTransition(plugins[name].state, Starting);
      SetState(name, Starting);
      var initialised := CallInit(name, ok);
      if !initialised {
        Fail(name, InitFailed);
        failed' := failed + [name];
      }
    }

    /** Phase 2 on one plugin of the order. */
    method StartPlugin(name: string, failed: seq<string>, ok: bool) returns (failed': seq<string>)
      requires Valid()
      modifies `plugins, `log
      ensures Valid()
      ensures forall calls :: var p := StartOne(Phase(old(plugins), failed, calls), name, ok);
                && plugins == p.plugins && failed' == p.failed
                && log == old(log) + if p.calls == calls then [] else [StartCall(name)]
    {
      failed' := failed;
      if name !in plugins { return; }
      if plugins[name].state == Failed { return; }
      if plugins[name].state != Starting { return; }
      var started := CallStart(name, ok);
      if !started {
        Fail(name, StartFailed);
        failed' := failed + [name];
        return;
      }
      SetState(name, Active);
    }

    /** The failed plugins whose failure is reported. */
    method Report(names: seq<string>) returns (parts: seq<string>)
      ensures parts == Blocking(plugins, names)
    {
      parts := [];
      for i := 0 to |names|
        invariant parts == Blocking(plugins, names[..i])
      {
        assert names[..i + 1][..i] == names[..i];
        var name := names[i];
        if name !in plugins || plugins[name].state != Failed { continue; }
        if !Core(plugins[name].manifest.engine) { continue; }
        parts := parts + [name];
      }
      assert names[..|names|] == names;
    }

    /** Phase 1 over the whole order. */
    method InitPlugins(initOk: Outcomes) returns (failed: seq<string>)
      requires Valid()
      modifies `plugins, `log
      ensures Valid()
      ensures var p := InitAll(old(plugins), order, initOk);
              plugins == p.plugins && failed == p.failed && log == old(log) + Inits(p.calls)
    {
      hide HasFailed, InitOne;
      failed := [];
      for i := 0 to |order|
        invariant Valid()
        invariant var p := InitAll(old(plugins), order[..i], initOk);
                  plugins == p.plugins && failed == p.failed && log == old(log) + Inits(p.calls)
      {
        ghost var p := InitAll(old(plugins), order[..i], initOk);
        StepCalls(p, StopRun(plugins, [], [], false), order[i], initOk(i));
        OneMoreCall(old(log), p.calls, InitOne(p, order[i], initOk(i)).calls, order[i]);
        assert order[..i + 1][..i] == order[..i];
        assert p == Phase(plugins, failed, p.calls);
        failed := InitPlugin(order[i], failed, initOk(i));
      }
      assert order[..|order|] == order;
    }

    /** Phase 2 over the whole order. */
    method StartPlugins(failed: seq<string>, startOk: Outcomes) returns (failed': seq<string>)
      requires Valid()
      modifies `plugins, `log
      ensures Valid()
      ensures var p := StartAll(Phase(old(plugins), failed, []), order, startOk);
              plugins == p.plugins && failed' == p.failed && log == old(log) + Starts(p.calls)
    {
      hide StartOne;
      ghost var first := Phase(plugins, failed, []);
      failed' := failed;
      for i := 0 to |order|
        invariant Valid()
        invariant var p := StartAll(first, order[..i], startOk);
                  plugins == p.plugins && failed' == p.failed && log == old(log) + Starts(p.calls)
      {
        ghost var p := StartAll(first, order[..i], startOk);
        StepCalls(p, StopRun(plugins, [], [], false), order[i], startOk(i));
        OneMoreCall(old(log), p.calls, StartOne(p, order[i], startOk(i)).calls, order[i]);
        assert order[..i + 1][..i] == order[..i];
        assert p == Phase(plugins, failed', p.calls);
        failed' := StartPlugin(order[i], failed', startOk(i));
      }
      assert order[..|order|] == order;
    }

    method Start(resolver: Option<Result<seq<string>, ()>>, initOk: Outcomes, startOk: Outcomes) returns (result: StartResult)
      requires Valid()
      modifies this
      ensures Valid()
      ensures result.NoOrder? ==>
                && plugins == old(plugins) && order == old(order) && log == old(log)
                && BuiltOrder(old(plugins), resolver, Failure(result.error))
      ensures !result.NoOrder? ==>
                && BuiltOrder(old(plugins), resolver, Success(order))
                && plugins == Started(old(plugins), order, initOk, startOk)
                && log == old(log) + Inits(InitAll(old(plugins), order, initOk).calls)
                          + Starts(StartAll(InitAll(old(plugins), order, initOk).(calls := []), order, startOk).calls)
                && result == if Blocking(plugins, order) == [] then StartedAll else FailedToStart(Blocking(plugins, order))
    {
      hide BuiltOrder, InitAll, StartAll;
      var built := BuildStartupOrder(resolver);
      if built.Failure? { return NoOrder(built.error); }
      order := built.value;
      var failed := InitPlugins(initOk);
      failed := StartPlugins(failed, startOk);
      BlockingAmongFailed(old(plugins), order, initOk, startOk);
      if |failed| > 0 {
        var parts := Report(order);
        if |parts| > 0 { return FailedToStart(parts); }
      }
      return StartedAll;
    }

    /** The stopping of one plugin; `panicked` when its plugin object is nil. */
    method StopPlugin(name: string, errors: seq<string>, ok: bool) returns (errors': seq<string>, panicked: bool)
      requires Valid()
      modifies `plugins, `log
      ensures !panicked ==> Valid()
      ensures forall calls :: var r := StopOne(StopRun(old(plugins), calls, errors, false), name, ok);
                && plugins == r.plugins && errors' == r.errors && panicked == r.panicked
                && log == old(log) + if r.calls == calls then [] else [StopCall(name)]
    {
      errors', panicked := errors, false;
      if name !in plugins { return; }
      if plugins[name].state != Active && plugins[name].state != Failed { return; }
      assert CanTransition(plugins[name].state, Stopping);
      SetState(name, Stopping);
      if !plugins[name].present { return errors, true; }
      var stopped := CallStop(name, ok);
      if !stopped {
        errors' := errors + [name];
        Fail(name, StopFailed);
        return;
      }
      SetState(name, Stopped);
    }

    method Stop(ok: Outcomes) returns (result: StopResult)
      requires Valid()
      modifies `plugins, `log
      ensures !result.StopPanicked? ==> Valid()
      ensures var r := StopAll(old(plugins), Reversed(order), ok);
              && plugins == r.plugins && log == old(log) + Stops(r.calls)
              && result == if r.panicked then StopPanicked else if r.errors == [] then StoppedAll else StopErrors(r.errors)
    {
      hide StopOne;
      if |order| == 0 { return StoppedAll; }
      var reverse := Reversed(order);
      var errors: seq<string> := [];
      for i := 0 to |reverse|
        invariant Valid()
        invariant var r := StopAll(old(plugins), reverse[..i], ok);
                  plugins == r.plugins && errors == r.errors && !r.panicked && log == old(log) + Stops(r.calls)
      {
        ghost var r := StopAll(old(plugins), reverse[..i], ok);
        StepCalls(Phase(plugins, [], []), r, reverse[i], ok(i));
        OneMoreCall(old(log), r.calls, StopOne(r, reverse[i], ok(i)).calls, reverse[i]);
        assert reverse[..i + 1][..i] == reverse[..i];
        assert r == StopRun(plugins, r.calls, errors, false);
        var panicked;
        errors, panicked := StopPlugin(reverse[i], errors, ok(i));
        if panicked {
          StopPanics(old(plugins), reverse, ok, i + 1);
          return StopPanicked;
        }
      }
      assert reverse[..|reverse|] == reverse;
      return if |errors| > 0 then StopErrors(errors) else StoppedAll;
    }

    /** The first requirement that is not an active plugin. */
    method InactiveRequirement(info: Info) returns (result: Option<string>)
      ensures result == FirstInactive(plugins, info.manifest.required)
    {
      var required := info.manifest.required;
      for i := 0 to |required|
        invariant FirstInactive(plugins, required) == FirstInactive(plugins, required[i..])
      {
        assert required[i..][1..] == required[i + 1..];
        var dep := ParseDependency(required[i]);
        if dep.None? { continue; }
        if dep.value !in plugins || plugins[dep.value].state != Active { return dep; }
      }
      return None;
    }

    method Enable(name: string, initOk: bool, startOk: bool) returns (result: PlugResult)
      requires Valid()
      modifies `plugins, `log
      ensures Valid()
      ensures (plugins, result) == Lifecycle.Enable(old(plugins), name, initOk, startOk)
      ensures log == old(log) + if result !in {Done, CallbackFailed} then []
                                else if initOk then [InitCall(name), StartCall(name)] else [InitCall(name)]
    {
      hide ParseDependency;
      if name !in plugins { return PluginNotFound; }
      var info := plugins[name];
      if info.state != Stopped && info.state != Failed { return WrongState(info.state); }
      var inactive := InactiveRequirement(info);
      if inactive.Some? { return DependencyNotActive(inactive.value); }
      if info.state == Stopped {
        assert CanTransition(info.state, Resolved);
        SetState(name, Resolved);
      }
      if !CanTransition(plugins[name].state, Starting) { return WrongState(plugins[name].state); }
      SetState(name, Starting);
      var error := StartNow(name, initOk, startOk);
      if error != NoError {
        Fail(name, error);
        assert plugins == old(plugins)[name := Activated(info, initOk, startOk)];
        return CallbackFailed;
      }
      SetState(name, Active);
      assert plugins == old(plugins)[name := Activated(info, initOk, startOk)];
      return Done;
    }

    method Disable(name: string, stopOk: bool) returns (result: PlugResult)
      requires Valid()
      modifies `plugins, `log
      ensures Valid()
      ensures (plugins, result) == Lifecycle.Disable(old(plugins), order, name, stopOk)
      ensures log == old(log) + if result == Done || result == CallbackFailed then [StopCall(name)] else []
    {
      hide DepName;
      if name !in plugins { return PluginNotFound; }
      var info := plugins[name];
      if info.state != Active { return WrongState(info.state); }
      for i := 0 to |order|
        invariant plugins == old(plugins) && log == old(log)
        invariant FirstDependent(plugins, order, name) == FirstDependent(plugins, order[i..], name)
      {
        assert order[i..][1..] == order[i + 1..];
        var other := order[i];
        if other !in plugins || other == name { continue; }
        if plugins[other].state != Active { continue; }
        var depends := Requires(plugins[other], name);
        if depends { return ActiveDependent(other); }
      }
      SetState(name, Stopping);
      var stopped := CallStop(name, stopOk);
      if !stopped {
        Fail(name, StopFailed);
        assert plugins == old(plugins)[name := Blame(info, StopFailed)];
        return CallbackFailed;
      }
      SetState(name, Stopped);
      assert plugins == old(plugins)[name := info.(state := Stopped)];
      return Done;
    }

    method Requires(info: Info, name: string) returns (found: bool)
      ensures found == DependsOn(info, name)
    {
      hide DepName;
      var required := info.manifest.required;
      for i := 0 to |required|
        invariant forall d :: d in required[..i] ==> DepName(d) != name
      {
        assert required[..i + 1] == required[..i] + [required[i]];
        if DepName(required[i]) == name {
          assert required[i] in required;
          return true;
        }
      }
      assert required[..|required|] == required;
      return false;
    }

    method Retry(name: string, initOk: bool, startOk: bool) returns (result: PlugResult)
      requires Valid()
      modifies `plugins, `log
      ensures !result.NilPlugin? ==> Valid()
      ensures (plugins, result) == Lifecycle.Retry(old(plugins), name, initOk, startOk)
      ensures log == old(log) + if result !in {Done, CallbackFailed} then []
                                else if initOk then [InitCall(name), StartCall(name)] else [InitCall(name)]
    {
      hide ParseDependency;
      if name !in plugins { return PluginNotFound; }
      var info := plugins[name];
      if info.state != Failed { return WrongState(info.state); }
      var inactive := InactiveRequirement(info);
      if inactive.Some? { return DependencyNotActive(inactive.value); }
      SetState(name, Resolved);
      SetState(name, Starting);
      assert plugins == old(plugins)[name := info.(state := Starting)];
      if !info.present { return NilPlugin; }
      var error := StartNow(name, initOk, startOk);
      if error != NoError {
        Fail(name, error);
        assert plugins == old(plugins)[name := Activated(info, initOk, startOk)];
        return CallbackFailed;
      }
      SetState(name, Active);
      assert plugins == old(plugins)[name := Activated(info, initOk, startOk)];
      return Done;
    }
  }

  lemma {:induction false} StopPanics(plugins: Plugins, names: seq<string>, ok: Outcomes, k: nat)
    requires k <= |names| && StopAll(plugins, names[..k], ok).panicked
    ensures StopAll(plugins, names, ok) == StopAll(plugins, names[..k], ok)
    decreases |names|
  {
    var n := |names| - 1;
    if k == |names| {
      assert names[..k] == names;
    } else {
      assert names[..n][..k] == names[..k];
      StopPanics(plugins, names[..n], ok, k);
    }
  }

  ghost predicate FailedListed(p: Phase, names: seq<string>) {
    forall n :: n in names && n in p.plugins && p.plugins[n].state == Failed ==> n in p.failed
  }

  lemma {:induction false} InitListsFailed(plugins: Plugins, order: seq<string>, ok: Outcomes)
    ensures FailedListed(InitAll(plugins, order, ok), order)
  {
    hide HasFailed;
    if order != [] {
      var n := |order| - 1;
      InitListsFailed(plugins, order[..n], ok);
      assert order == order[..n] + [order[n]];
    }
  }

  lemma {:induction false} StartListsFailed(p: Phase, order: seq<string>, names: seq<string>, ok: Outcomes)
    requires FailedListed(p, names)
    ensures FailedListed(StartAll(p, order, ok), names)
  {
    if order != [] {
      StartListsFailed(p, order[..|order| - 1], names, ok);
    }
  }

  /** The report goes through the order name by name. */
  lemma {:induction false} BlockingConcat(plugins: Plugins, one: seq<string>, two: seq<string>)
    ensures Blocking(plugins, one + two) == Blocking(plugins, one) + Blocking(plugins, two)
  {
    if two == [] {
      assert one + two == one;
    } else {
      var n := |two| - 1;
      assert (one + two)[..|one + two| - 1] == one + two[..n];
      BlockingConcat(plugins, one, two[..n]);
    }
  }

  /** Start reports exactly the failed plugins of the order that run in process. */
  lemma {:induction false} BlockingExact(plugins: Plugins, order: seq<string>, n: string)
    ensures n in Blocking(plugins, order) <==>
            n in order && n in plugins && plugins[n].state == Failed && plugins[n].manifest.engine in {"", "native", "l1"}
  {
    if order != [] {
      var k := |order| - 1;
      BlockingExact(plugins, order[..k], n);
      assert order == order[..k] + [order[k]];
    }
  }

  /** Every reported plugin is on the failed list, so an empty list means there is nothing to report. */
  lemma BlockingAmongFailed(plugins: Plugins, order: seq<string>, initOk: Outcomes, startOk: Outcomes)
    ensures StartAll(InitAll(plugins, order, initOk).(calls := []), order, startOk).failed == []
            ==> Blocking(Started(plugins, order, initOk, startOk), order) == []
  {
    hide InitAll, StartAll, Blocking;
    var p := InitAll(plugins, order, initOk).(calls := []);
    InitListsFailed(plugins, order, initOk);
    StartListsFailed(p, order, order, startOk);
    var parts := Blocking(Started(plugins, order, initOk, startOk), order);
    if parts != [] {
      assert parts[0] in parts;
      BlockingExact(Started(plugins, order, initOk, startOk), order, parts[0]);
    }
  }
}

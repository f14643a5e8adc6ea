/** Plugin states, manifests, and what each lifecycle operation does to the table of loaded plugins. */
module Lifecycle {
  import opened Wrappers
  import opened Lexical
  import opened Graph
  import Kahn

  datatype PluginState = Registered | Resolved | Starting | Active | Stopping | Stopped | Failed

  /** The valid state changes. */
  predicate CanTransition(from: PluginState, to: PluginState) {
    match from
    case Registered => to in {Resolved, Failed}
    case Resolved => to in {Starting, Failed, Stopped}
    case Starting => to in {Active, Failed}
    case Active => to == Stopping
    case Stopping => to in {Stopped, Failed}
    case Stopped => to in {Resolved, Starting, Failed}
    case Failed => to in {Stopping, Stopped}
  }

  datatype Manifest = Manifest(name: string, engine: string, required: seq<string>, after: seq<string>)

  datatype Reason = NoError | LoadFailed | DependencyFailed | InitFailed | StartFailed | StopFailed

  /** A loaded plugin; `present` is false for an entry whose plugin object could not be created. */
  datatype Info = Info(present: bool, manifest: Manifest, state: PluginState, reason: Reason)

  type Plugins = map<string, Info>

  /** What a plugin's callbacks answer, by position in the startup or shutdown order; any function is possible. */
  type Outcomes = nat -> bool

  // ----- dependency declarations -----

  /** The position of the first `@`, or the length. */
  function AtSign(s: string): (i: nat)
    ensures i <= |s| && '@' !in s[..i] && (i < |s| ==> s[i] == '@')
  {
    if s == "" || s[0] == '@' then 0 else
      var i := AtSign(s[1..]);
      assert s[..i + 1] == [s[0]] + s[1..][..i];
      i + 1
  }

  /** The plugin named by `name` or `name@constraint`; an empty constraint is an error. */
  function ParseDependency(dep: string): Option<string> {
    var i := AtSign(dep);
    if i == |dep| then Some(dep)
    else if i + 1 == |dep| then None
    else Some(dep[..i])
  }

  /** The name as used where the parse error is ignored. */
  function DepName(dep: string): string {
    match ParseDependency(dep)
    case Some(n) => n
    case None => ""
  }

  ghost function Named(deps: seq<string>): set<string> {
    set d | d in deps && ParseDependency(d).Some? :: ParseDependency(d).value
  }

  ghost function Needs(info: Info): set<string> {
    Named(info.manifest.required)
  }

  // ----- starting -----

  datatype Phase = Phase(plugins: Plugins, failed: seq<string>, calls: seq<string>)

  predicate HasFailed(info: Info, failed: seq<string>) {
    exists dep :: dep in info.manifest.required && DepName(dep) in failed
  }

  function Blame(info: Info, reason: Reason): Info {
    info.(state := Failed, reason := reason)
  }

  /** Phase 1 for one plugin: resolve, skip if a dependency has failed, otherwise call Init. */
  function InitOne(p: Phase, name: string, ok: bool): Phase {
    if name !in p.plugins then p else
      var info := p.plugins[name];
      if !CanTransition(info.state, Resolved) then
        if info.state == Failed then p.(failed := p.failed + [name]) else p
      else if HasFailed(info, p.failed) then
        p.(plugins := p.plugins[name := Blame(info, DependencyFailed)], failed := p.failed + [name])
      else if !ok then
        Phase(p.plugins[name := Blame(info, InitFailed)], p.failed + [name], p.calls + [name])
      else
        p.(plugins := p.plugins[name := info.(state := Starting)], calls := p.calls + [name])
  }

  function InitAll(plugins: Plugins, order: seq<string>, ok: Outcomes): Phase {
    if order == [] then Phase(plugins, [], []) else
      var n := |order| - 1;
      InitOne(InitAll(plugins, order[..n], ok), order[n], ok(n))
  }

  /** Phase 2 for one plugin. It looks at the plugin's own state only, not at its dependencies. */
  function StartOne(p: Phase, name: string, ok: bool): Phase {
    if name !in p.plugins || p.plugins[name].state != Starting then p
    else if !ok then
      Phase(p.plugins[name := Blame(p.plugins[name], StartFailed)], p.failed + [name], p.calls + [name])
    else
      p.(plugins := p.plugins[name := p.plugins[name].(state := Active)], calls := p.calls + [name])
  }

  function StartAll(p: Phase, order: seq<string>, ok: Outcomes): Phase {
    if order == [] then p else
      var n := |order| - 1;
      StartOne(StartAll(p, order[..n], ok), order[n], ok(n))
  }

  /** The table after both phases. */
  function Started(plugins: Plugins, order: seq<string>, initOk: Outcomes, startOk: Outcomes): Plugins {
    StartAll(InitAll(plugins, order, initOk).(calls := []), order, startOk).plugins
  }

  predicate Core(engine: string) {
    engine == "" || engine == "native" || engine == "l1"
  }

  /** The failed plugins that Start reports; failures of isolated engines are only logged. */
  function Blocking(plugins: Plugins, order: seq<string>): seq<string> {
    if order == [] then [] else
      var front, name := Blocking(plugins, order[..|order| - 1]), order[|order| - 1];
      if name in plugins && plugins[name].state == Failed && Core(plugins[name].manifest.engine)
      then front + [name] else front
  }

  // ----- the startup order -----

  datatype OrderError =
    | Missing(plugin: string, dependency: string)
    | Cycle(path: seq<string>)
    | ResolverFailed

  ghost predicate RequirementsLoaded(plugins: Plugins) {
    forall n, d :: n in plugins && d in Needs(plugins[n]) ==> d in plugins
  }

  /** Requires, and those of After that are loaded. */
  ghost function PluginGraph(plugins: Plugins): Graph {
    map n | n in plugins :: Needs(plugins[n]) + (Named(plugins[n].manifest.after) * plugins.Keys)
  }

  function Loaded(plugins: Plugins, names: seq<string>): seq<string> {
    if names == [] then [] else
      var front, n := Loaded(plugins, names[..|names| - 1]), names[|names| - 1];
      if n in plugins then front + [n] else front
  }

  lemma {:induction false} LoadedElems(plugins: Plugins, names: seq<string>)
    ensures Elems(Loaded(plugins, names)) == Elems(names) * plugins.Keys
  {
    if names != [] {
      var n := |names| - 1;
      LoadedElems(plugins, names[..n]);
      assert names == names[..n] + [names[n]];
      assert Elems(names) == Elems(names[..n]) + {names[n]};
      if names[n] in plugins {
        assert Elems(Loaded(plugins, names)) == Elems(Loaded(plugins, names[..n])) + {names[n]};
      }
    }
  }

  /** What `buildStartupOrder` may return, with or without a cross-type resolver. */
  ghost predicate BuiltOrder(plugins: Plugins, resolver: Option<Result<seq<string>, ()>>, result: Result<seq<string>, OrderError>) {
    match resolver
    case Some(Failure(_)) => result == Failure(ResolverFailed)
    case Some(Success(names)) =>
      && result.Success?
      && var k := |Loaded(plugins, names)|;
         && k <= |result.value| && result.value[..k] == Loaded(plugins, names)
         && Distinct(result.value[k..]) && Elems(result.value[k..]) == plugins.Keys - Elems(names)
    case None =>
      var order := Kahn.Order(PluginGraph(plugins));
      match result
      case Success(o) => RequirementsLoaded(plugins) && |order| == |plugins| && o == order
      case Failure(Missing(n, d)) => n in plugins && d in Needs(plugins[n]) && d !in plugins
      case Failure(Cycle(path)) =>
        RequirementsLoaded(plugins) && |order| != |plugins|
        && Distinct(path) && Elems(path) == plugins.Keys - Elems(order)
      case Failure(ResolverFailed) => false
  }

  // ----- stopping -----

  /** `panicked`: Stop was called through the nil plugin object of a load-failed entry. */
  datatype StopRun = StopRun(plugins: Plugins, calls: seq<string>, errors: seq<string>, panicked: bool)

  function StopOne(r: StopRun, name: string, ok: bool): StopRun {
    if r.panicked || name !in r.plugins then r else
      var info := r.plugins[name];
      if info.state != Active && info.state != Failed then r
      else if !info.present then r.(plugins := r.plugins[name := info.(state := Stopping)], panicked := true)
      else if !ok then
        StopRun(r.plugins[name := Blame(info, StopFailed)], r.calls + [name], r.errors + [name], false)
      else
        r.(plugins := r.plugins[name := info.(state := Stopped)], calls := r.calls + [name])
  }

  /** Stopping the plugins of `names` in that order. */
  function StopAll(plugins: Plugins, names: seq<string>, ok: Outcomes): StopRun {
    if names == [] then StopRun(plugins, [], [], false) else
      var n := |names| - 1;
      StopOne(StopAll(plugins, names[..n], ok), names[n], ok(n))
  }

  function Reversed(s: seq<string>): (r: seq<string>)
    ensures |r| == |s| && forall i :: 0 <= i < |s| ==> r[i] == s[|s| - 1 - i]
  {
    seq(|s|, i requires 0 <= i < |s| => s[|s| - 1 - i])
  }

  // ----- hot plugging -----

  datatype PlugResult =
    | Done
    | PluginNotFound
    | WrongState(state: PluginState)
    | DependencyNotActive(dependency: string)
    | ActiveDependent(dependent: string)
    | CallbackFailed
    | NilPlugin

  /** The first parsed requirement that is not an active plugin. */
  function FirstInactive(plugins: Plugins, required: seq<string>): Option<string> {
    if required == [] then None else
      match ParseDependency(required[0])
      case None => FirstInactive(plugins, required[1..])
      case Some(d) =>
        if d !in plugins || plugins[d].state != Active then Some(d) else FirstInactive(plugins, required[1..])
  }

  /** Init then Start on one plugin. */
  function Activated(info: Info, initOk: bool, startOk: bool): Info {
    if initOk && startOk then info.(state := Active)
    else Blame(info, if !initOk then InitFailed else StartFailed)
  }

  function Enable(plugins: Plugins, name: string, initOk: bool, startOk: bool): (Plugins, PlugResult) {
    if name !in plugins then (plugins, PluginNotFound) else
      var info := plugins[name];
      if info.state != Stopped && info.state != Failed then (plugins, WrongState(info.state)) else
        match FirstInactive(plugins, info.manifest.required)
        case Some(d) => (plugins, DependencyNotActive(d))
        case None =>
          if info.state == Failed then (plugins, WrongState(Failed))
          else (plugins[name := Activated(info, initOk, startOk)], if initOk && startOk then Done else CallbackFailed)
  }

  function Retry(plugins: Plugins, name: string, initOk: bool, startOk: bool): (Plugins, PlugResult) {
    if name !in plugins then (plugins, PluginNotFound) else
      var info := plugins[name];
      if info.state != Failed then (plugins, WrongState(info.state)) else
        match FirstInactive(plugins, info.manifest.required)
        case Some(d) => (plugins, DependencyNotActive(d))
        case None =>
          if !info.present then (plugins[name := info.(state := Starting)], NilPlugin)
          else (plugins[name := Activated(info, initOk, startOk)], if initOk && startOk then Done else CallbackFailed)
  }

  predicate DependsOn(info: Info, name: string) {
    exists dep :: dep in info.manifest.required && DepName(dep) == name
  }

  /** The first active plugin of `order`, other than `name`, that requires `name`. */
  function FirstDependent(plugins: Plugins, order: seq<string>, name: string): Option<string> {
    if order == [] then None else
      var other := order[0];
      if other in plugins && other != name && plugins[other].state == Active && DependsOn(plugins[other], name)
      then Some(other) else FirstDependent(plugins, order[1..], name)
  }

  function Disable(plugins: Plugins, order: seq<string>, name: string, stopOk: bool): (Plugins, PlugResult) {
    if name !in plugins then (plugins, PluginNotFound) else
      var info := plugins[name];
      if info.state != Active then (plugins, WrongState(info.state)) else
        match FirstDependent(plugins, order, name)
        case Some(other) => (plugins, ActiveDependent(other))
        case None =>
          if stopOk then (plugins[name := info.(state := Stopped)], Done)
          else (plugins[name := Blame(info, StopFailed)], CallbackFailed)
  }

  // ----- loading -----

  /** One registry entry: its manifest, whether it is enabled (None: the query fails), and whether it loads. */
  datatype Entry = Entry(manifest: Manifest, enabled: Option<bool>, loads: bool)

  function LoadOne(plugins: Plugins, e: Entry): Plugins {
    var name := e.manifest.name;
    if e.enabled != Some(true) || name in plugins then plugins
    else if e.loads then plugins[name := Info(true, e.manifest, Registered, NoError)]
    else if Core(e.manifest.engine) then plugins[name := Info(false, e.manifest, Failed, LoadFailed)]
    else plugins
  }

  /** Entries are loaded one by one until an enabled-query fails. */
  function LoadAll(plugins: Plugins, entries: seq<Entry>): Plugins
    decreases |entries|
  {
    if entries == [] || entries[0].enabled.None? then plugins
    else LoadAll(LoadOne(plugins, entries[0]), entries[1..])
  }
}

/** The orders in which Start may visit the plugins, and what holds when one puts requirements first. */
module LifecycleOrders {
  import opened Wrappers
  import opened Lexical
  import opened Graph
  import opened Lifecycle
  import opened LifecycleTheorems
  import Kahn

  /** Loaded plugins, each once, after those of their requirements that are loaded. */
  ghost predicate Respects(plugins: Plugins, order: seq<string>) {
    && Distinct(order)
    && (forall n :: n in order ==> n in plugins)
    && (forall n, d {:trigger d in Needs(plugins[n])} ::
          n in order && n in plugins && d in Needs(plugins[n]) && d in plugins ==> Before(order, d, n))
  }

  // ----- the orders Start can build -----

  /** Whatever the resolver answers, an order that Start uses visits every loaded plugin and nothing else. */
  lemma BuiltOrderCovers(plugins: Plugins, resolver: Option<Result<seq<string>, ()>>, order: seq<string>)
    requires BuiltOrder(plugins, resolver, Success(order))
    ensures Elems(order) == plugins.Keys
  {
    match resolver
    case Some(Success(names)) =>
      var k := |Loaded(plugins, names)|;
      LoadedElems(plugins, names);
      assert order == order[..k] + order[k..];
      assert Elems(order) == Elems(order[..k]) + Elems(order[k..]);
    case None => FallbackCovers(plugins, order);
  }

  lemma FallbackCovers(plugins: Plugins, order: seq<string>)
    requires BuiltOrder(plugins, None, Success(order))
    ensures Elems(order) == plugins.Keys && Distinct(order) && Topological(PluginGraph(plugins), order)
  {
    hide Kahn.Order, Needs, Named, RequirementsLoaded;
    var g := PluginGraph(plugins);
    Kahn.OrderTopological(g);
    DistinctSize(order);
    assert g.Keys == plugins.Keys && |plugins.Keys| == |plugins|;
    SubsetSize(Elems(order), g.Keys);
  }

  /** The manager's own sort puts requirements first, and has checked that they are loaded. */
  lemma FallbackRespects(plugins: Plugins, order: seq<string>)
    requires BuiltOrder(plugins, None, Success(order))
    ensures Respects(plugins, order) && RequirementsLoaded(plugins)
  {
    FallbackCovers(plugins, order);
    assert RequirementsLoaded(plugins);
    hide BuiltOrder, Needs, Named, PluginGraph, First, Topological, Before, Distinct, RequirementsLoaded;
    forall n, d | n in order && n in plugins && d in Needs(plugins[n]) && d in plugins ensures Before(order, d, n) {
      NeedIsEdge(plugins, n, d);
      EdgeIsEarlier(PluginGraph(plugins), order, n, d);
    }
    forall n | n in order ensures n in plugins { assert n in Elems(order); }
  }

  lemma EdgeIsEarlier(g: Graph, order: seq<string>, n: string, d: string)
    requires Topological(g, order) && n in order && n in g && d in g[n]
    ensures Before(order, d, n)
  {
    var i := First(order, n);
    assert d in Elems(order[..i]);
    assert order == order[..i] + order[i..];
    FirstInPrefix(order, d, i);
  }

  lemma NeedIsEdge(plugins: Plugins, n: string, d: string)
    requires n in plugins && d in Needs(plugins[n])
    ensures n in PluginGraph(plugins) && d in PluginGraph(plugins)[n]
  {
    hide Needs, Named;
  }

  // ----- with requirements first -----

  /** When requirements come first and are loaded and no `Start()` fails, there is no gap. */
  lemma RespectsNoGap(plugins: Plugins, order: seq<string>, initOk: Outcomes, startOk: Outcomes)
    requires Respects(plugins, order) && Elems(order) == plugins.Keys && RequirementsLoaded(plugins)
    requires forall i :: startOk(i)
    ensures NoGap(plugins, order, initOk, startOk)
  {
    hide Needs, Sound, First, Distinct;
    forall n, d | ComesUp(plugins, order, initOk, startOk, n) && d in Needs(plugins[n])
      ensures !Gap(plugins, order, initOk, startOk, n, d)
    {
      assert n in Elems(order) && d in Elems(order);
    }
  }

  /** The requires-graph alone, without After. */
  ghost function NeedsGraph(plugins: Plugins): Graph {
    map n | n in plugins :: Needs(plugins[n])
  }

  /** Nothing has been started yet: entries are freshly registered or failed to load. */
  ghost predicate Unstarted(plugins: Plugins) {
    Settled(plugins) && forall n :: n in plugins ==> plugins[n].state in {Registered, Failed}
  }

  /** `q` was loaded and its `Init` succeeds. */
  ghost predicate LoadedWell(plugins: Plugins, order: seq<string>, initOk: Outcomes, q: string) {
    q in plugins && plugins[q].state == Registered && Answers(order, initOk, q)
  }

  /** Everything `n` transitively requires was loaded and initialised. */
  ghost predicate AllWellBelow(plugins: Plugins, order: seq<string>, initOk: Outcomes, n: string) {
    forall q :: Reaches(NeedsGraph(plugins), n, q) ==> LoadedWell(plugins, order, initOk, q)
  }

  ghost predicate AllWell(plugins: Plugins, order: seq<string>, initOk: Outcomes, n: string) {
    LoadedWell(plugins, order, initOk, n) && AllWellBelow(plugins, order, initOk, n)
  }

  lemma AllWellUnfold(plugins: Plugins, order: seq<string>, initOk: Outcomes, n: string)
    requires n in plugins
    ensures AllWellBelow(plugins, order, initOk, n)
            <==> forall d :: d in Needs(plugins[n]) ==> AllWell(plugins, order, initOk, d)
  {
    hide Needs, LoadedWell, Reaches;
    var g := NeedsGraph(plugins);
    if AllWellBelow(plugins, order, initOk, n) {
      forall d | d in Needs(plugins[n]) ensures AllWell(plugins, order, initOk, d) {
        ReachesEdge(g, n, d);
        forall q | Reaches(g, d, q) ensures LoadedWell(plugins, order, initOk, q) { ReachesTransitive(g, n, d, q); }
      }
    }
    if forall d :: d in Needs(plugins[n]) ==> AllWell(plugins, order, initOk, d) {
      forall q | Reaches(g, n, q) ensures LoadedWell(plugins, order, initOk, q) {
        var d := ReachesUnfold(g, n, q);
        assert AllWell(plugins, order, initOk, d);
      }
    }
  }

  lemma BlockersAreNeeds(plugins: Plugins, n: string)
    requires n in plugins && "" !in plugins && Needs(plugins[n]) <= plugins.Keys
    ensures forall d :: d in Blockers(plugins[n]) && d in plugins <==> d in Needs(plugins[n])
  {
    hide ParseDependency;
    NeedsAreBlockers(plugins[n]);
    forall d | d in Blockers(plugins[n]) && d in plugins ensures d in Needs(plugins[n]) {
      var dep :| dep in plugins[n].manifest.required && DepName(dep) == d;
      assert ParseDependency(dep).Some?;
    }
  }

  lemma {:induction false} SoundIffAllWell(plugins: Plugins, order: seq<string>, initOk: Outcomes, n: string)
    requires Unstarted(plugins) && Respects(plugins, order) && Elems(order) == plugins.Keys && RequirementsLoaded(plugins)
    requires "" !in plugins && n in plugins && n in order
    ensures Sound(plugins, order, initOk, n) <==> AllWell(plugins, order, initOk, n)
    ensures Idle(plugins, n) ==> (SoundBelow(plugins, order, initOk, n) <==> AllWellBelow(plugins, order, initOk, n))
    decreases First(order, n)
  {
    hide Needs, Blockers, First, StartGraph, SoundBelow, AllWellBelow, Distinct;
    if Idle(plugins, n) {
      SoundUnfold(plugins, order, initOk, n);
      AllWellUnfold(plugins, order, initOk, n);
      StartGraphNode(plugins, order, n);
      BlockersAreNeeds(plugins, n);
      forall d | d in Needs(plugins[n])
        ensures d in plugins && Before(order, d, n) && (Sound(plugins, order, initOk, d) <==> AllWell(plugins, order, initOk, d))
      {
        assert Before(order, d, n);
        SoundIffAllWell(plugins, order, initOk, d);
      }
    }
  }

  /**
   The first start over an order that puts requirements first: a plugin becomes active exactly when its `Start()` succeeds
   and it and all its transitive requirements were loaded and initialised; every other plugin ends failed. `Init` is called
   exactly on the loaded plugins whose transitive requirements are all loaded and initialised.
   */
  lemma FirstStart(plugins: Plugins, order: seq<string>, initOk: Outcomes, startOk: Outcomes, n: string)
    requires Unstarted(plugins) && Respects(plugins, order) && Elems(order) == plugins.Keys && RequirementsLoaded(plugins)
    requires "" !in plugins && n in plugins
    ensures var now := Started(plugins, order, initOk, startOk);
            n in now &&
            now[n].state == if AllWell(plugins, order, initOk, n) && Answers(order, startOk, n) then Active else Failed
    ensures n in InitAll(plugins, order, initOk).calls
            <==> plugins[n].state == Registered && AllWellBelow(plugins, order, initOk, n)
  {
    hide InitAll, Started, StartCalls, Needs, SoundBelow, AllWellBelow, Respects, RequirementsLoaded, Answers;
    assert n in Elems(order);
    SoundIffAllWell(plugins, order, initOk, n);
    StartExact(plugins, order, initOk, startOk, n);
  }
}

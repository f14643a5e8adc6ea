/** The startup order of a manager whose plugins and whose resolver come from the registry. */
module RegistryStartup {
  import opened Wrappers
  import opened Lexical
  import opened Graph
  import opened Routes
  import opened Database
  import opened IndexTheorems
  import opened RegistryTheorems
  import opened RegistryFields
  import opened Resolver
  import opened ResolverTheorems
  import opened Lifecycle
  import opened LifecycleLoading
  import BoltRegistry
  import opened LifecycleTheorems
  import opened LifecycleOrders
  import opened LifecycleShutdown
  import opened StartupAgreement
  import LifecycleRuns
  import Kahn

  /** A plugin route, of whatever domain, under the name of a loaded plugin. */
  ghost predicate BearsLoaded(r: Route, plugins: Plugins) {
    r.typ == PLUGIN && r.name in plugins
  }

  /** The loaded manifest has the names of the route's requirements, whatever their types and domains. */
  ghost predicate ReadBack(r: Route, plugins: Plugins) {
    BearsLoaded(r, plugins) && plugins[r.name].manifest.required == Names(r.requirements)
  }

  /** Every loaded plugin was read from a stored one. */
  ghost predicate Backed(db: Db, plugins: Plugins) {
    forall n :: n in plugins ==> exists r :: Stored(db.routes, r) && r.name == n && ReadBack(r, plugins)
  }

  /** No two stored plugins, which must then be of different domains, bear the name of one loaded plugin. */
  ghost predicate NoHomonym(db: Db, plugins: Plugins) {
    forall r, q :: Stored(db.routes, r) && Stored(db.routes, q) && BearsLoaded(r, plugins) && BearsLoaded(q, plugins) && r.name == q.name
      ==> r == q
  }

  /** A requirement of the route bears the name `d` and is no plugin; the manager takes it for the plugin of that name. */
  ghost predicate Borrows(r: Route, d: string) {
    exists q :: q in r.requirements && q.name == d && q.typ != PLUGIN
  }

  // ----- names keep the places of their routes -----

  ghost predicate OneEach(plugins: Plugins, routes: seq<Route>) {
    forall r, q :: r in routes && q in routes && BearsLoaded(r, plugins) && BearsLoaded(q, plugins) && r.name == q.name ==> r == q
  }

  ghost predicate NamesPlugin(routes: seq<Route>, n: string) {
    exists r :: r in routes && r.typ == PLUGIN && r.name == n
  }

  function LoadedNames(plugins: Plugins, routes: seq<Route>): seq<string> {
    Loaded(plugins, BoltRegistry.PluginNames(routes))
  }

  lemma LoadedNamesUnfold(plugins: Plugins, routes: seq<Route>)
    requires routes != []
    ensures var k := |routes| - 1;
            LoadedNames(plugins, routes)
            == if BearsLoaded(routes[k], plugins) then LoadedNames(plugins, routes[..k]) + [routes[k].name] else LoadedNames(plugins, routes[..k])
  {}

  lemma {:induction false} LoadedNamesMembers(plugins: Plugins, routes: seq<Route>)
    ensures forall n :: n in LoadedNames(plugins, routes) <==> n in plugins && NamesPlugin(routes, n)
  {
    hide LoadedNames;
    if routes == [] {
      NothingLoaded(plugins);
    } else {
      var k := |routes| - 1;
      assert routes == routes[..k] + [routes[k]];
      LoadedNamesMembers(plugins, routes[..k]);
      LoadedNamesUnfold(plugins, routes);
      forall n ensures NamesPlugin(routes, n) <==> NamesPlugin(routes[..k], n) || (routes[k].typ == PLUGIN && routes[k].name == n) {
        if NamesPlugin(routes, n) { var q :| q in routes && q.typ == PLUGIN && q.name == n; }
      }
    }
  }

  lemma NothingLoaded(plugins: Plugins)
    ensures LoadedNames(plugins, []) == [] && Distinct<string>([])
  {}

  /** A repeated name in the order is a homonym in the registry. */
  lemma {:induction false} DistinctIffOneEach(plugins: Plugins, routes: seq<Route>)
    requires DistinctRefs(routes)
    ensures Distinct(LoadedNames(plugins, routes)) <==> OneEach(plugins, routes)
  {
    hide LoadedNames, Distinct, DistinctRefs;
    if routes == [] {
      NothingLoaded(plugins);
    } else {
      var k := |routes| - 1;
      var front, x := routes[..k], routes[k];
      assert routes == front + [x];
      FrontDistinct(routes);
      DistinctIffOneEach(plugins, front);
      LoadedNamesMembers(plugins, front);
      LoadedNamesUnfold(plugins, routes);
      AppendDistinctIff(LoadedNames(plugins, front), x.name);
      OneEachUnfold(plugins, front, x);
    }
  }

  lemma FrontDistinct(routes: seq<Route>)
    requires routes != [] && DistinctRefs(routes)
    ensures var k := |routes| - 1;
            DistinctRefs(routes[..k]) && routes[k] !in routes[..k] && KeySeq(routes) == KeySeq(routes[..k]) + [routes[k].Key()]
            && routes[k].Key() !in KeySeq(routes[..k])
  {
    hide Route.Key;
    var k := |routes| - 1;
    assert KeySeq(routes[..k]) == KeySeq(routes)[..k];
    forall i | 0 <= i < k ensures KeySeq(routes[..k])[i] != routes[k].Key() && routes[i] != routes[k] {
      assert KeySeq(routes)[i] != KeySeq(routes)[k];
    }
  }

  lemma AppendDistinctIff(s: seq<string>, x: string)
    ensures Distinct(s + [x]) <==> Distinct(s) && x !in s
  {
    var t := s + [x];
    if Distinct(t) {
      forall i, j | 0 <= i < j < |s| ensures s[i] != s[j] { assert t[i] != t[j]; }
      forall i | 0 <= i < |s| ensures s[i] != x { assert t[i] != t[|s|]; }
    }
  }

  lemma OneEachUnfold(plugins: Plugins, front: seq<Route>, x: Route)
    requires x !in front
    ensures OneEach(plugins, front + [x])
            <==> OneEach(plugins, front) && (BearsLoaded(x, plugins) ==> !NamesPlugin(front, x.name))
  {
    var routes := front + [x];
    assert x in routes && forall q :: q in front ==> q in routes;
    if OneEach(plugins, routes) && BearsLoaded(x, plugins) {
      forall q | q in front && q.typ == PLUGIN ensures q.name != x.name { assert q != x; }
    }
  }

  /** Without homonyms, the order of the loaded names is the order of their routes' keys. */
  lemma {:induction false} PlacesKept(plugins: Plugins, routes: seq<Route>, r: Route, p: Route)
    requires DistinctRefs(routes) && OneEach(plugins, routes) && r in routes && p in routes
    requires BearsLoaded(r, plugins) && BearsLoaded(p, plugins)
    ensures Before(LoadedNames(plugins, routes), p.name, r.name) <==> Before(KeySeq(routes), p.Key(), r.Key())
  {
    hide LoadedNames, DistinctRefs, First, Route.Key;
    var k := |routes| - 1;
    var front, x := routes[..k], routes[k];
    assert routes == front + [x];
    FrontDistinct(routes);
    OneEachUnfold(plugins, front, x);
    LoadedNamesMembers(plugins, front);
    LoadedNamesUnfold(plugins, routes);
    var names, keys := LoadedNames(plugins, front), KeySeq(front);
    if r in front && p in front { PlacesKept(plugins, front, r, p); }
    PlaceOfLast(plugins, front, x, r);
    PlaceOfLast(plugins, front, x, p);
    FirstAppend(keys, x.Key(), r.Key());
    FirstAppend(keys, x.Key(), p.Key());
    if BearsLoaded(x, plugins) {
      FirstAppend(names, x.name, r.name);
      FirstAppend(names, x.name, p.name);
    }
  }

  lemma PlaceOfLast(plugins: Plugins, front: seq<Route>, x: Route, r: Route)
    requires OneEach(plugins, front + [x]) && x !in front && r in front + [x] && BearsLoaded(r, plugins)
    requires x.Key() !in KeySeq(front)
    requires forall n :: n in LoadedNames(plugins, front) <==> n in plugins && NamesPlugin(front, n)
    ensures r in front <==> r.Key() in KeySeq(front)
    ensures r in front <==> r.name in LoadedNames(plugins, front)
  {
    hide Route.Key, LoadedNames;
    OneEachUnfold(plugins, front, x);
    if r in front {
      var i :| 0 <= i < |front| && front[i] == r;
      assert KeySeq(front)[i] == r.Key();
      assert NamesPlugin(front, r.name);
    }
  }

  // ----- the order that Start builds -----

  lemma ResolvedKeys(db: Db)
    requires Consistent(db) && ResolutionOrder(db).Success?
    ensures var routes := ResolutionOrder(db).value;
            && DistinctRefs(routes) && KeySeq(routes) == Kahn.Order(ReqGraph(StoredRoutes(db)))
            && forall r :: r in routes <==> Stored(db.routes, r)
  {
    hide Consistent, Stored, Database.List, DistinctRefs, FirstFault, Index, Kahn.Order, SortedRoutes, ReqGraph, RouteRef.String, Route.Key;
    var l := StoredRoutes(db);
    StoredRoutesExact(db);
    SortedDistinct(l);
    SortedRoutesKeys(l);
    ResolvedOrderIsValid(l);
    var routes := ResolutionOrder(db).value;
    assert forall r :: r in routes <==> r in multiset(routes);
    assert forall r :: r in l <==> r in multiset(l);
  }

  /** An order is the loaded part of the resolver's names when that names every loaded plugin. */
  lemma NothingAppended(plugins: Plugins, names: seq<string>, order: seq<string>)
    requires BuiltOrder(plugins, Some(Success(names)), Success(order)) && plugins.Keys <= Elems(names)
    ensures order == Loaded(plugins, names)
  {
    var k := |Loaded(plugins, names)|;
    assert plugins.Keys - Elems(names) == {};
    DistinctSize(order[k..]);
    assert order == order[..k] + order[k..];
  }

  lemma BackedAreNamed(db: Db, plugins: Plugins)
    requires Consistent(db) && ResolutionOrder(db).Success? && Backed(db, plugins)
    ensures plugins.Keys <= Elems(BoltRegistry.PluginNames(ResolutionOrder(db).value))
    ensures forall n :: n in LoadedNames(plugins, ResolutionOrder(db).value) <==> n in plugins
  {
    hide Consistent, Stored, DistinctRefs, ResolutionOrder;
    var routes := ResolutionOrder(db).value;
    ResolvedKeys(db);
    LoadedNamesMembers(plugins, routes);
    LoadedElems(plugins, BoltRegistry.PluginNames(routes));
    forall n | n in plugins ensures n in LoadedNames(plugins, routes) {
      var r :| Stored(db.routes, r) && r.name == n && ReadBack(r, plugins);
      assert NamesPlugin(routes, n);
    }
    forall n | n in plugins ensures n in Elems(BoltRegistry.PluginNames(routes)) {
      assert n in Elems(LoadedNames(plugins, routes));
    }
  }

  /** When every loaded plugin is stored, Start uses the loaded names of the resolved routes as they come. */
  lemma OrderFromRegistry(db: Db, plugins: Plugins, order: seq<string>)
    requires Consistent(db) && ResolutionOrder(db).Success? && Backed(db, plugins)
    requires BuiltOrder(plugins, Some(Success(BoltRegistry.PluginNames(ResolutionOrder(db).value))), Success(order))
    ensures order == LoadedNames(plugins, ResolutionOrder(db).value)
    ensures forall n :: n in order <==> n in plugins
    ensures Distinct(order) <==> NoHomonym(db, plugins)
    ensures NoHomonym(db, plugins) ==> OneEach(plugins, ResolutionOrder(db).value)
  {
    hide Consistent, Stored, DistinctRefs, Distinct, Route.Key, ResolutionOrder, BuiltOrder, Backed;
    var routes := ResolutionOrder(db).value;
    ResolvedKeys(db);
    BackedAreNamed(db, plugins);
    NothingAppended(plugins, BoltRegistry.PluginNames(routes), order);
    DistinctIffOneEach(plugins, routes);
  }

  // ----- what the manager reads -----

  /** In a registry that resolves, every requirement names a stored route, so the manager reads it as that bare name. */
  lemma ResolvedNames(db: Db, r: Route, d: RouteRef)
    requires Consistent(db) && ResolutionOrder(db).Success? && Stored(db.routes, r) && d in r.requirements
    ensures ParseDependency(d.name) == Some(d.name)
  {
    hide Consistent, Stored, Resolve;
    if !NameOk(d.name) { OddNameNeverResolves(db, r, d); }
    BareName(d.name);
  }

  lemma NeedIsRequirement(db: Db, plugins: Plugins, r: Route, d: string)
    requires Consistent(db) && ResolutionOrder(db).Success? && Stored(db.routes, r) && ReadBack(r, plugins)
    ensures d in Needs(plugins[r.name]) <==> exists q :: q in r.requirements && q.name == d
  {
    hide Consistent, Stored, ParseDependency, Resolve;
    var required := plugins[r.name].manifest.required;
    forall q | q in r.requirements ensures ParseDependency(q.name) == Some(q.name) && q.name in required {
      ResolvedNames(db, r, q);
      var i :| 0 <= i < |r.requirements| && r.requirements[i] == q;
      assert required[i] == q.name;
    }
    forall dep | dep in required ensures exists q :: q in r.requirements && q.name == dep {
      var i :| 0 <= i < |required| && required[i] == dep;
      assert r.requirements[i] in r.requirements;
    }
  }

  /** A plugin that a stored route requires is stored, and comes before it. */
  lemma RequiredPlugin(db: Db, r: Route, q: RouteRef) returns (p: Route)
    requires Consistent(db) && ResolutionOrder(db).Success? && Stored(db.routes, r) && q in r.requirements
    ensures Stored(db.routes, p) && p.Ref() == q && Before(Kahn.Order(ReqGraph(StoredRoutes(db))), p.Key(), r.Key())
  {
    hide Consistent, Stored, Database.List, DistinctRefs, Kahn.Order, TrustRespected, RouteRef.String, Resolve;
    var l := StoredRoutes(db);
    var g := ReqGraph(l);
    StoredRoutesExact(db);
    ResolvesIff(l);
    p :| p in l && p.Key() == q.String();
    StoredValidates(db, r);
    StoredValidates(db, p);
    RefStringIdentifies(q, p);
    ResolvedKeys(db);
    var keys := Kahn.Order(g);
    Kahn.OrderTopological(g);
    assert r in ResolutionOrder(db).value;
    KeyListed(ResolutionOrder(db).value, r);
    assert p.Key() in g[r.Key()];
    EdgeIsEarlier(g, keys, r.Key(), p.Key());
  }

  lemma KeyListed(routes: seq<Route>, r: Route)
    requires r in routes
    ensures r.Key() in KeySeq(routes)
  {
    hide Route.Key;
    var i :| 0 <= i < |routes| && routes[i] == r;
    assert KeySeq(routes)[i] == r.Key();
  }

  // ----- exactly when the order puts requirements first -----

  /** The plugin with a borrowed name has its place before the borrower in the registry's own order of all routes. */
  ghost predicate BorrowedInPlace(db: Db, plugins: Plugins) {
    forall r, p :: Stored(db.routes, r) && Stored(db.routes, p) && BearsLoaded(r, plugins) && BearsLoaded(p, plugins) && Borrows(r, p.name)
      ==> Before(Kahn.Order(ReqGraph(StoredRoutes(db))), p.Key(), r.Key())
  }

  lemma SamePlaces(db: Db, plugins: Plugins, order: seq<string>, r: Route, p: Route)
    requires Consistent(db) && ResolutionOrder(db).Success? && Backed(db, plugins) && NoHomonym(db, plugins)
    requires BuiltOrder(plugins, Some(Success(BoltRegistry.PluginNames(ResolutionOrder(db).value))), Success(order))
    requires Stored(db.routes, r) && Stored(db.routes, p) && BearsLoaded(r, plugins) && BearsLoaded(p, plugins)
    ensures Before(order, p.name, r.name) <==> Before(Kahn.Order(ReqGraph(StoredRoutes(db))), p.Key(), r.Key())
    ensures ReadBack(r, plugins)
  {
    hide Consistent, Stored, ResolutionOrder, DistinctRefs, Kahn.Order, ReqGraph, Route.Key, BuiltOrder, First, LoadedNames;
    OrderFromRegistry(db, plugins, order);
    ResolvedKeys(db);
    PlacesKept(plugins, ResolutionOrder(db).value, r, p);
    var q :| Stored(db.routes, q) && q.name == r.name && ReadBack(q, plugins);
    assert q == r;
  }

  /**
   When the registry resolves and every loaded plugin was read from a stored one, the order that Start builds through the
   resolver puts requirements first exactly when no two stored plugins bear one loaded name and every borrowed name is in
   place in the registry.
   */
  lemma ResolvedOrderRespectsIff(db: Db, plugins: Plugins, order: seq<string>)
    requires Consistent(db) && ResolutionOrder(db).Success? && Backed(db, plugins)
    requires BuiltOrder(plugins, Some(Success(BoltRegistry.PluginNames(ResolutionOrder(db).value))), Success(order))
    ensures Respects(plugins, order) <==> NoHomonym(db, plugins) && BorrowedInPlace(db, plugins)
  {
    hide RouteRef.String, Consistent, Stored, ResolutionOrder, Needs, BuiltOrder, First, Distinct, Kahn.Order, ReqGraph, NoHomonym, Backed, ReadBack;
    OrderFromRegistry(db, plugins, order);
    if Respects(plugins, order) {
      forall r, p | Stored(db.routes, r) && Stored(db.routes, p) && BearsLoaded(r, plugins) && BearsLoaded(p, plugins) && Borrows(r, p.name)
        ensures Before(Kahn.Order(ReqGraph(StoredRoutes(db))), p.Key(), r.Key())
      {
        SamePlaces(db, plugins, order, r, p);
        NeedIsRequirement(db, plugins, r, p.name);
        assert p.name in Needs(plugins[r.name]);
      }
    }
    if NoHomonym(db, plugins) && BorrowedInPlace(db, plugins) {
      forall n, d | n in order && n in plugins && d in Needs(plugins[n]) && d in plugins ensures Before(order, d, n) {
        NeededInPlace(db, plugins, order, n, d);
      }
    }
  }

  lemma NeededInPlace(db: Db, plugins: Plugins, order: seq<string>, n: string, d: string)
    requires Consistent(db) && ResolutionOrder(db).Success? && Backed(db, plugins)
    requires BuiltOrder(plugins, Some(Success(BoltRegistry.PluginNames(ResolutionOrder(db).value))), Success(order))
    requires NoHomonym(db, plugins) && BorrowedInPlace(db, plugins)
    requires n in plugins && d in plugins && d in Needs(plugins[n])
    ensures Before(order, d, n)
  {
    hide RouteRef.String, Consistent, Stored, ResolutionOrder, Needs, BuiltOrder, First, Kahn.Order, ReqGraph, NoHomonym;
    var r :| Stored(db.routes, r) && r.name == n && ReadBack(r, plugins);
    NeedIsRequirement(db, plugins, r, d);
    var q :| q in r.requirements && q.name == d;
    if q.typ == PLUGIN {
      var p := RequiredPlugin(db, r, q);
      SamePlaces(db, plugins, order, r, p);
    } else {
      assert Borrows(r, d);
      var p :| Stored(db.routes, p) && p.name == d && ReadBack(p, plugins);
      SamePlaces(db, plugins, order, r, p);
    }
  }

  // ----- conditions on what is stored -----

  /** Every borrower also requires its way to the plugin whose name it borrows. */
  ghost predicate BorrowedReached(db: Db, plugins: Plugins) {
    forall r, p :: Stored(db.routes, r) && Stored(db.routes, p) && BearsLoaded(r, plugins) && BearsLoaded(p, plugins) && Borrows(r, p.name)
      ==> Reaches(ReqGraph(StoredRoutes(db)), r.Key(), p.Key())
  }

  lemma ReachedInPlace(db: Db, plugins: Plugins)
    requires Consistent(db) && ResolutionOrder(db).Success? && BorrowedReached(db, plugins)
    ensures BorrowedInPlace(db, plugins)
  {
    hide Consistent, Stored, ResolutionOrder, Kahn.Order, ReqGraph, Route.Key, Reaches, Borrows;
    var g := ReqGraph(StoredRoutes(db));
    var keys := Kahn.Order(g);
    ResolvedKeys(db);
    Kahn.OrderTopological(g);
    forall r, p | Stored(db.routes, r) && Stored(db.routes, p) && BearsLoaded(r, plugins) && BearsLoaded(p, plugins) && Borrows(r, p.name)
      ensures Before(keys, p.Key(), r.Key())
    {
      KeyListed(ResolutionOrder(db).value, r);
      ReachedIsEarlier(g, keys, r.Key(), p.Key());
    }
  }

  lemma ReachedIsEarlier(g: Graph, keys: seq<string>, a: string, b: string)
    requires Topological(g, keys) && Elems(keys) <= g.Keys && a in keys && Reaches(g, a, b)
    ensures Before(keys, b, a)
  {
    var p :| Connects(g, p, a, b);
    PathIsEarlier(g, keys, p);
  }

  lemma {:induction false} PathIsEarlier(g: Graph, keys: seq<string>, p: seq<string>)
    requires Topological(g, keys) && IsPath(g, p) && |p| >= 2 && p[0] in keys
    ensures Before(keys, p[|p| - 1], p[0])
  {
    hide First, Topological;
    assert p[0] in g && p[0 + 1] in g[p[0]];
    EdgeIsEarlier(g, keys, p[0], p[1]);
    if |p| > 2 { PathIsEarlier(g, keys, p[1..]); }
  }

  /** So the order always puts requirements first when there are no homonyms and borrowers reach what they borrow from, if they borrow at all. */
  lemma ResolvedOrderRespects(db: Db, plugins: Plugins, order: seq<string>)
    requires Consistent(db) && ResolutionOrder(db).Success? && Backed(db, plugins)
    requires NoHomonym(db, plugins) && BorrowedReached(db, plugins)
    requires BuiltOrder(plugins, Some(Success(BoltRegistry.PluginNames(ResolutionOrder(db).value))), Success(order))
    ensures Respects(plugins, order)
  {
    hide Consistent, ResolutionOrder, BuiltOrder, Respects, NoHomonym, BorrowedReached, BorrowedInPlace, Backed;
    ReachedInPlace(db, plugins);
    ResolvedOrderRespectsIff(db, plugins, order);
  }

  // ----- runs over a registry -----

  /** The manifest that is read back from a plugin route: the types and domains of its requirements are dropped. */
  function ManifestOf(r: Route): Manifest {
    Manifest(r.name, r.engine, Names(r.requirements), [])
  }

  /** Where the default-domain plugin of a name is looked up, wherever the route of that name was listed from. */
  function EnabledIn(db: Db, name: string): Option<bool> {
    if Has(db.routes, PluginRef(name)) then Some(Lookup(db.routes, PluginRef(name)).enabled) else None
  }

  const PLUGINS_ONLY := ListOptions(Some(PLUGIN), "", None, None, None)

  /** What `LoadAll` works through: the listed plugins, each with its manifest, whether that name is enabled, and whether it loads. */
  ghost function ReadEntries(db: Db, loads: Manifest -> bool): (entries: seq<Entry>)
    ensures |entries| == |Database.List(db.routes, PLUGINS_ONLY)|
  {
    var l := Database.List(db.routes, PLUGINS_ONLY);
    seq(|l|, i requires 0 <= i < |l| => Entry(ManifestOf(l[i]), EnabledIn(db, l[i].name), loads(ManifestOf(l[i]))))
  }

  /** The entry is a stored plugin's, whatever is answered about it. */
  ghost predicate FromStored(db: Db, e: Entry) {
    exists r :: Stored(db.routes, r) && r.typ == PLUGIN && e.manifest == ManifestOf(r)
  }

  lemma ListedPlugins(db: Db, r: Route)
    requires Consistent(db)
    ensures r in Database.List(db.routes, PLUGINS_ONLY) <==> Stored(db.routes, r) && r.typ == PLUGIN
  {
    hide Consistent, Stored, Database.List, DistinctRefs, WellBucketed, Keyed;
    ConsistentBuckets(db);
    ListExact(db.routes, PLUGINS_ONLY);
  }

  /** The entry of a plugin route: name, engine and the names of its requirements, with the enablement of the default-domain plugin. */
  ghost predicate EntryOf(db: Db, loads: Manifest -> bool, r: Route, e: Entry) {
    && e.manifest.name == r.name && e.manifest.engine == r.engine && e.manifest.after == []
    && |e.manifest.required| == |r.requirements| && (forall i :: 0 <= i < |r.requirements| ==> e.manifest.required[i] == r.requirements[i].name)
    && e.enabled == EnabledIn(db, r.name) && e.loads == loads(e.manifest)
  }

  lemma EntryOfExact(db: Db, loads: Manifest -> bool, r: Route, e: Entry)
    ensures EntryOf(db, loads, r, e) <==> e == Entry(ManifestOf(r), EnabledIn(db, r.name), loads(ManifestOf(r)))
  {
    if EntryOf(db, loads, r, e) { assert e.manifest.required == Names(r.requirements); }
  }

  /** What is read is exactly an entry for each stored plugin. */
  lemma ReadEntriesExact(db: Db, loads: Manifest -> bool, e: Entry)
    requires Consistent(db)
    ensures e in ReadEntries(db, loads) <==> exists r :: Stored(db.routes, r) && r.typ == PLUGIN && EntryOf(db, loads, r, e)
  {
    hide Consistent, Stored, Database.List, EnabledIn, ManifestOf, EntryOf;
    var l, entries := Database.List(db.routes, PLUGINS_ONLY), ReadEntries(db, loads);
    forall r
      ensures r in l <==> Stored(db.routes, r) && r.typ == PLUGIN
      ensures EntryOf(db, loads, r, e) <==> e == Entry(ManifestOf(r), EnabledIn(db, r.name), loads(ManifestOf(r)))
    {
      ListedPlugins(db, r);
      EntryOfExact(db, loads, r, e);
    }
    if e in entries {
      var i :| 0 <= i < |entries| && entries[i] == e;
      assert l[i] in l;
    }
    if r :| Stored(db.routes, r) && r.typ == PLUGIN && EntryOf(db, loads, r, e) {
      var i :| 0 <= i < |l| && l[i] == r;
      assert entries[i] == e;
    }
  }

  lemma ReadEntriesFromStored(db: Db, loads: Manifest -> bool)
    requires Consistent(db)
    ensures forall e :: e in ReadEntries(db, loads) ==> FromStored(db, e)
  {
    hide Consistent, Stored, EnabledIn, ManifestOf, ReadEntries, EntryOf;
    forall e | e in ReadEntries(db, loads) ensures FromStored(db, e) {
      ReadEntriesExact(db, loads, e);
      var r :| Stored(db.routes, r) && r.typ == PLUGIN && EntryOf(db, loads, r, e);
      EntryOfExact(db, loads, r, e);
    }
  }

  /** Every entry can be looked up, so that loading gets to the end of the listing, exactly when every stored plugin has a default-domain twin. */
  lemma LoadsToTheEndIff(db: Db, loads: Manifest -> bool)
    requires Consistent(db)
    ensures (forall e :: e in ReadEntries(db, loads) ==> e.enabled.Some?)
            <==> forall r :: Stored(db.routes, r) && r.typ == PLUGIN ==> Has(db.routes, PluginRef(r.name))
  {
    hide Consistent, Stored, Has, ManifestOf, ReadEntries, Lookup;
    forall e { ReadEntriesExact(db, loads, e); }
    if forall e :: e in ReadEntries(db, loads) ==> e.enabled.Some? {
      forall r | Stored(db.routes, r) && r.typ == PLUGIN ensures Has(db.routes, PluginRef(r.name)) {
        var e := Entry(ManifestOf(r), EnabledIn(db, r.name), loads(ManifestOf(r)));
        EntryOfExact(db, loads, r, e);
        ReadEntriesExact(db, loads, e);
      }
    }
    if forall r :: Stored(db.routes, r) && r.typ == PLUGIN ==> Has(db.routes, PluginRef(r.name)) {
      forall e | e in ReadEntries(db, loads) ensures e.enabled.Some? { ReadEntriesExact(db, loads, e); }
    }
  }

  /** After a plugin has been disabled in the registry, its entry says so, and loading does not bring it into a table without it. */
  lemma DisabledIsSkipped(db: Db, name: string, loads: Manifest -> bool, plugins: Plugins)
    requires Consistent(db) && Has(db.routes, PluginRef(name)) && name !in plugins
    ensures SetEnabled(db, PluginRef(name), false, "inactive").Success?
    ensures var after := SetEnabled(db, PluginRef(name), false, "inactive").value;
            && Consistent(after) && (forall e :: e in ReadEntries(after, loads) && e.manifest.name == name ==> e.enabled == Some(false))
            && name !in LoadAll(plugins, ReadEntries(after, loads))
  {
    hide Consistent, Stored, SetEnabled, ReadEntries, LoadAll, Has, Lookup, Admitted, Keyed, ManifestOf;
    ConsistentBuckets(db);
    SetEnabledExact(db, PluginRef(name), false, "inactive", PluginRef(name));
    var after := SetEnabled(db, PluginRef(name), false, "inactive").value;
    assert Consistent(after) by { ApplyKeepsIndexes(db, OpSetEnabled(PluginRef(name), false)); }
    assert EnabledIn(after, name) == Some(false);
    var entries := ReadEntries(after, loads);
    forall e | e in entries && e.manifest.name == name ensures e.enabled == Some(false) { ReadEntriesExact(after, loads, e); }
    LoadAllExact(plugins, entries, name);
    forall i | 0 <= i < |entries| && entries[i].manifest.name == name ensures entries[i].enabled == Some(false) {
      assert entries[i] in entries;
    }
    forall i: nat ensures !Admitted(entries, i, name) {
      if Admitted(entries, i, name) { AdmittedIndex(entries, i, name); }
    }
  }

  lemma LoadOneBacked(db: Db, plugins: Plugins, e: Entry)
    requires Backed(db, plugins) && FromStored(db, e)
    ensures Backed(db, LoadOne(plugins, e))
  {
    hide Stored;
    var now := LoadOne(plugins, e);
    forall n | n in now ensures exists r :: Stored(db.routes, r) && r.name == n && ReadBack(r, now) {
      if n in plugins {
        var r :| Stored(db.routes, r) && r.name == n && ReadBack(r, plugins);
        assert ReadBack(r, now);
      } else {
        var r :| Stored(db.routes, r) && r.typ == PLUGIN && e.manifest == ManifestOf(r);
        assert ReadBack(r, now);
      }
    }
  }

  /** Loading stored plugins, whichever are enabled and load, leaves a table that the registry backs. */
  lemma {:induction false} LoadedIsBacked(db: Db, plugins: Plugins, entries: seq<Entry>)
    requires Backed(db, plugins) && forall e :: e in entries ==> FromStored(db, e)
    ensures Backed(db, LoadAll(plugins, entries))
    decreases |entries|
  {
    hide Backed, FromStored, LoadOne;
    if entries != [] && entries[0].enabled.Some? {
      assert entries[0] in entries && forall e :: e in entries[1..] ==> e in entries;
      LoadOneBacked(db, plugins, entries[0]);
      LoadedIsBacked(db, LoadOne(plugins, entries[0]), entries[1..]);
    }
  }

  /** In particular, the table that an empty manager builds from the listing. */
  lemma ListingIsBacked(db: Db, loads: Manifest -> bool)
    requires Consistent(db)
    ensures Backed(db, LoadAll(map[], ReadEntries(db, loads)))
  {
    hide Consistent, Backed, FromStored, LoadAll, ReadEntries;
    NothingBacked(db);
    ReadEntriesFromStored(db, loads);
    LoadedIsBacked(db, map[], ReadEntries(db, loads));
  }

  /** Plugins are loaded from the registry, and every order comes from it. */
  ghost predicate Over(db: Db, op: LifecycleRuns.Op) {
    && (op.OpLoad? ==> forall e :: e in op.entries ==> FromStored(db, e))
    && (LifecycleRuns.StartsAnew(op) ==>
          ResolutionOrder(db).Success? && op.resolver == Some(Success(BoltRegistry.PluginNames(ResolutionOrder(db).value))))
  }

  lemma KeepsBacked(db: Db, before: Plugins, after: Plugins)
    requires Backed(db, before) && LifecycleRuns.Keeps(before, after) && before.Keys == after.Keys
    ensures Backed(db, after)
  {
    hide Stored;
    forall n | n in after ensures exists r :: Stored(db.routes, r) && r.name == n && ReadBack(r, after) {
      var r :| Stored(db.routes, r) && r.name == n && ReadBack(r, before);
      assert ReadBack(r, after);
    }
  }

  lemma NothingBacked(db: Db)
    ensures Backed(db, map[])
  {}

  lemma {:induction false} RunsStayBacked(db: Db, ops: seq<LifecycleRuns.Op>, k: nat)
    requires LifecycleRuns.SaneRun(ops) && k <= |ops| && forall i :: 0 <= i < |ops| ==> Over(db, ops[i])
    requires !LifecycleRuns.Run(ops[..k]).down
    ensures Backed(db, LifecycleRuns.Run(ops[..k]).plugins)
  {
    hide LifecycleRuns.Sane, LifecycleRuns.Base, Backed, FromStored, LoadAll;
    if k == 0 {
      NothingBacked(db);
    } else {
      var s, op := LifecycleRuns.Run(ops[..k - 1]), ops[k - 1];
      LifecycleRuns.RunUnfold(ops, k - 1);
      LifecycleRuns.RunsKeepBase(ops, k - 1);
      RunsStayBacked(db, ops, k - 1);
      if op.OpLoad? {
        LoadedIsBacked(db, s.plugins, op.entries);
      } else {
        hide LifecycleRuns.Apply;
        LifecycleRuns.ApplyKeeps(s, op);
        KeepsBacked(db, s.plugins, LifecycleRuns.Apply(s, op).plugins);
      }
    }
  }

  /** No two stored plugins bear one name, and a requirement that bears a stored plugin's name is that plugin or comes with a way to it. */
  ghost predicate ClearNames(db: Db) {
    && (forall r, q :: Stored(db.routes, r) && Stored(db.routes, q) && r.typ == PLUGIN && q.typ == PLUGIN && r.name == q.name ==> r == q)
    && (forall r, p :: Stored(db.routes, r) && Stored(db.routes, p) && r.typ == PLUGIN && p.typ == PLUGIN && Borrows(r, p.name)
          ==> Reaches(ReqGraph(StoredRoutes(db)), r.Key(), p.Key()))
  }

  lemma OverIsOrderly(db: Db, s: LifecycleRuns.Sys, op: LifecycleRuns.Op)
    requires Consistent(db) && ClearNames(db) && Over(db, op) && LifecycleRuns.Sane(s, op) && (!s.down ==> Backed(db, s.plugins))
    ensures LifecycleRuns.Orderly(s, op)
  {
    hide Consistent, Resolve, Stored, Database.List, Backed, Respects, Reaches, ReqGraph, Borrows, Route.Key;
    if LifecycleRuns.StartsAnew(op) && !s.down {
      assert NoHomonym(db, s.plugins) && BorrowedReached(db, s.plugins);
      ResolvedOrderRespects(db, s.plugins, op.built.value);
    }
  }

  /**
   Over every run of a manager from empty, whose plugins and orders come from a registry in which names are clear, every
   shutdown reaches active dependents first, whatever is enabled, loads or fails.
   */
  lemma RegistryRunsStopInOrder(db: Db, ops: seq<LifecycleRuns.Op>, k: nat)
    requires Consistent(db) && ClearNames(db)
    requires LifecycleRuns.SaneRun(ops) && k <= |ops| && forall i :: 0 <= i < |ops| ==> Over(db, ops[i])
    ensures var s := LifecycleRuns.Run(ops[..k]); !s.down ==> DependentsFirst(s.plugins, s.order)
  {
    hide LifecycleRuns.Run, Over, LifecycleRuns.Sane, LifecycleRuns.Orderly, LifecycleRuns.Ordered, DependentsFirst, Consistent, ClearNames, Backed;
    forall i | 0 <= i < |ops| ensures LifecycleRuns.Orderly(LifecycleRuns.Run(ops[..i]), ops[i]) {
      if !LifecycleRuns.Run(ops[..i]).down { RunsStayBacked(db, ops, i); }
      OverIsOrderly(db, LifecycleRuns.Run(ops[..i]), ops[i]);
    }
    LifecycleRuns.OrderlyRunsStopInOrder(ops, k);
  }
}

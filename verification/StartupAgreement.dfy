/** The lifecycle manager's own sort and the registry's plugin order agree where both apply. */
module StartupAgreement {
  import opened Wrappers
  import opened Lexical
  import opened Routes
  import opened Database
  import opened IndexTheorems
  import opened RegistryTheorems
  import opened Resolver
  import opened ResolverTheorems
  import opened Lifecycle
  import BoltRegistry
  import Kahn

  /** The common prefix of the keys of default-domain plugins. */
  const PREFIX: string := PLUGIN + "/" + DEFAULT_DOMAIN + "/"

  lemma PluginKey(name: string)
    ensures PluginRef(name).String() == PREFIX + name == "plugin/aroute/" + name
  {
    assert PREFIX == "plugin/aroute/";
  }

  function Names(refs: seq<RouteRef>): (names: seq<string>)
    ensures |names| == |refs|
  {
    seq(|refs|, i requires 0 <= i < |refs| => refs[i].name)
  }

  /** The manifest from which a default-domain plugin was made: its requirements as written, constraints included. */
  ghost predicate Declares(r: Route, m: Manifest) {
    && r.typ == PLUGIN && r.domain == DEFAULT_DOMAIN
    && m.required == Names(r.requirements)
    && forall d :: d in r.requirements ==> d == PluginRef(d.name)
  }

  /** Requirements are bare names. */
  ghost predicate Bare(r: Route) {
    forall d :: d in r.requirements ==> '@' !in d.name
  }

  ghost predicate AllBare(db: Db) {
    forall r :: Stored(db.routes, r) ==> Bare(r)
  }

  lemma BareName(s: string)
    requires '@' !in s
    ensures ParseDependency(s) == Some(s)
  {}

  /** And nothing else. */
  ghost predicate SameDeclaration(r: Route, m: Manifest) {
    Declares(r, m) && m.after == []
  }

  /** Every stored route is a default-domain plugin that is loaded from its own declaration, and no other is loaded. */
  ghost predicate Mirrored(db: Db, plugins: Plugins) {
    && (forall r :: Stored(db.routes, r) ==> r.name in plugins && SameDeclaration(r, plugins[r.name].manifest))
    && (forall n :: n in plugins ==> exists r :: Stored(db.routes, r) && r.name == n)
  }

  lemma DeclaredNeeds(r: Route, info: Info)
    requires Declares(r, info.manifest) && Bare(r)
    ensures forall k :: (exists d :: d in r.requirements && d.String() == k) <==> k in PrefixedSet(PREFIX, Needs(info))
  {
    hide RouteRef.String, ParseDependency;
    forall k ensures (exists d :: d in r.requirements && d.String() == k) <==> k in PrefixedSet(PREFIX, Needs(info)) {
      if d :| d in r.requirements && d.String() == k {
        var i :| 0 <= i < |r.requirements| && r.requirements[i] == d;
        assert info.manifest.required[i] == d.name;
        BareName(d.name);
        PluginKey(d.name);
        assert d.name in Needs(info);
      }
      if k in PrefixedSet(PREFIX, Needs(info)) {
        var n :| n in Needs(info) && k == PREFIX + n;
        var dep :| dep in info.manifest.required && ParseDependency(dep).Some? && ParseDependency(dep).value == n;
        var i :| 0 <= i < |r.requirements| && info.manifest.required[i] == dep;
        assert r.requirements[i] in r.requirements;
        BareName(dep);
        PluginKey(n);
      }
    }
  }

  ghost function StoredRoutes(db: Db): seq<Route> {
    Database.List(db.routes, NO_FILTER)
  }

  lemma StoredRoutesExact(db: Db)
    requires Consistent(db)
    ensures DistinctRefs(StoredRoutes(db)) && forall r :: r in StoredRoutes(db) <==> Stored(db.routes, r)
  {
    hide WellBucketed, ForwardExact, ReverseExact, Stored, DistinctRefs;
    ListExact(db.routes, NO_FILTER);
  }

  lemma MirroredKey(db: Db, plugins: Plugins, r: Route)
    requires Mirrored(db, plugins) && Stored(db.routes, r)
    ensures r.name in plugins && r.Ref() == PluginRef(r.name) && r.Key() == PREFIX + r.name
    ensures SameDeclaration(r, plugins[r.name].manifest)
  {
    hide RouteRef.String;
    PluginKey(r.name);
  }

  lemma RequirementsPrefixed(db: Db, plugins: Plugins, r: Route)
    requires Consistent(db) && Mirrored(db, plugins) && AllBare(db) && Stored(db.routes, r)
    ensures r.name in plugins && r.Key() == PREFIX + r.name
    ensures RequirementsOf(StoredRoutes(db), r.Key()) == PrefixedSet(PREFIX, PluginGraph(plugins)[r.name])
  {
    hide RouteRef.String, Consistent, Mirrored, Declares, Stored, Needs, StoredRoutes, DistinctRefs;
    MirroredKey(db, plugins, r);
    DeclaredNeeds(r, plugins[r.name]);
    StoredRoutesExact(db);
    assert r in StoredRoutes(db);
    assert PluginGraph(plugins)[r.name] == Needs(plugins[r.name]);
    hide Named;
    forall k ensures k in RequirementsOf(StoredRoutes(db), r.Key()) <==> k in PrefixedSet(PREFIX, Needs(plugins[r.name])) {
      assert k in PrefixedSet(PREFIX, Needs(plugins[r.name])) <==> exists d :: d in r.requirements && d.String() == k;
      if q, d :| q in StoredRoutes(db) && q.Key() == r.Key() && d in q.requirements && d.String() == k {
        UniqueByKey(StoredRoutes(db), q, r);
      }
    }
  }

  /** The stored requires-graph is the plugin graph with every key prefixed. */
  lemma GraphsAgree(db: Db, plugins: Plugins)
    requires Consistent(db) && Mirrored(db, plugins) && AllBare(db)
    ensures ReqGraph(StoredRoutes(db)) == Kahn.PrefixedGraph(PREFIX, PluginGraph(plugins))
  {
    hide RouteRef.String, Consistent, SameDeclaration, Stored, Needs, Named, StoredRoutes, RequirementsOf, Route.Key;
    var g, h := ReqGraph(StoredRoutes(db)), PluginGraph(plugins);
    StoredRoutesExact(db);
    forall k ensures k in g <==> k in PrefixedSet(PREFIX, h.Keys) {
      if k in g {
        var r :| r in StoredRoutes(db) && r.Key() == k;
        MirroredKey(db, plugins, r);
      }
      if k in PrefixedSet(PREFIX, h.Keys) {
        var n :| n in h.Keys && k == PREFIX + n;
        var r :| Stored(db.routes, r) && r.name == n;
        MirroredKey(db, plugins, r);
        assert r in StoredRoutes(db);
      }
    }
    forall k | k in g ensures g[k] == Kahn.PrefixedGraph(PREFIX, h)[k] {
      var r :| r in StoredRoutes(db) && r.Key() == k;
      RequirementsPrefixed(db, plugins, r);
    }
    assert g.Keys == Kahn.PrefixedGraph(PREFIX, h).Keys;
  }

  lemma {:induction false} PluginNamesOf(routes: seq<Route>, names: seq<string>)
    requires |routes| == |names| && forall i :: 0 <= i < |routes| ==> routes[i].typ == PLUGIN && routes[i].name == names[i]
    ensures BoltRegistry.PluginNames(routes) == names
  {
    if routes != [] {
      var n := |routes| - 1;
      PluginNamesOf(routes[..n], names[..n]);
      assert names == names[..n] + [names[n]];
    }
  }

  lemma PrefixedCount(p: string, s: set<string>)
    ensures |PrefixedSet(p, s)| == |s|
  {
    var t := SortedOf(s);
    SortedOfPrefixed(p, s);
    SortedOfExact(s);
    SortedOfExact(PrefixedSet(p, s));
    assert |SortedOf(PrefixedSet(p, s))| == |t|;
  }

  lemma LoadedIffPresent(db: Db, plugins: Plugins)
    requires Consistent(db) && Mirrored(db, plugins) && AllBare(db)
    ensures AllPresent(StoredRoutes(db)) <==> RequirementsLoaded(plugins)
  {
    hide RouteRef.String, Consistent, Declares, Stored, Needs, Named, StoredRoutes, Route.Key, DistinctRefs;
    var l, g := StoredRoutes(db), PluginGraph(plugins);
    StoredRoutesExact(db);
    GraphsAgree(db, plugins);
    ReqGraphNodes(l);
    if AllPresent(l) {
      forall n, d | n in plugins && d in Needs(plugins[n]) ensures d in plugins {
        Kahn.PrefixedMember(PREFIX, d, g[n]);
        EdgePresent(l, PREFIX + n, PREFIX + d);
        Kahn.PrefixedMember(PREFIX, d, g.Keys);
      }
    }
    if RequirementsLoaded(plugins) {
      forall r, d | r in l && d in r.requirements ensures d.String() in Keys(l) {
        MirroredKey(db, plugins, r);
        DeclaredNeeds(r, plugins[r.name]);
        assert d.String() in PrefixedSet(PREFIX, Needs(plugins[r.name]));
        var n :| n in Needs(plugins[r.name]) && d.String() == PREFIX + n;
        assert n in g;
      }
    }
  }

  lemma EdgePresent(l: seq<Route>, a: string, b: string)
    requires AllPresent(l) && a in ReqGraph(l) && b in ReqGraph(l)[a]
    ensures b in Keys(l)
  {
    hide RouteRef.String, Route.Key;
  }

  lemma StoredValidates(db: Db, r: Route)
    requires Consistent(db) && Stored(db.routes, r)
    ensures Validates(r)
  {
    hide Validates, RouteRef.String, ForwardExact, ReverseExact;
    StoredUnderItsRef(db.routes, r.Ref());
  }

  lemma BareOrdersAgree(db: Db, plugins: Plugins)
    requires Consistent(db) && Mirrored(db, plugins) && AllBare(db) && TrustRespected(StoredRoutes(db))
    ensures ResolutionOrder(db).Success? <==> BuiltOrder(plugins, None, Success(Kahn.Order(PluginGraph(plugins))))
    ensures ResolutionOrder(db).Success? ==>
              BoltRegistry.PluginNames(ResolutionOrder(db).value) == Kahn.Order(PluginGraph(plugins))
  {
    hide RouteRef.String, Consistent, Mirrored, Stored, AllPresent, TrustRespected, RequirementsLoaded, ReqGraph, PluginGraph,
      Kahn.Order, FirstFault, Index, DistinctRefs, Keys, SortedRoutes, Kahn.PrefixedGraph, Database.List;
    var l := StoredRoutes(db);
    StoredRoutesExact(db);
    GraphsAgree(db, plugins);
    Kahn.OrderPrefixed(PREFIX, PluginGraph(plugins));
    LoadedIffPresent(db, plugins);
    NoFaultIff(l);
    RouteCount(db, plugins);
    if Resolve(l).Success? {
      NamesOfOrder(db, plugins);
    }
  }

  /** A requirement whose name is no valid name, such as one that carries a version constraint, keeps the whole registry from resolving. */
  lemma OddNameNeverResolves(db: Db, r: Route, d: RouteRef)
    requires Consistent(db) && Stored(db.routes, r) && d in r.requirements && !NameOk(d.name)
    ensures ResolutionOrder(db).Failure?
  {
    hide RouteRef.String, Consistent, Stored, Resolve, Database.List, DistinctRefs, TrustRespected, ReqGraph;
    var l := StoredRoutes(db);
    StoredRoutesExact(db);
    ResolvesIff(l);
    if Resolve(l).Success? {
      var p :| p in l && p.Key() == d.String();
      StoredValidates(db, r);
      StoredValidates(db, p);
      RefStringIdentifies(d, p);
    }
  }

  /**
   The registry's order exists exactly when the manager's own sort succeeds, no requirement carries a constraint and every
   one is trusted enough; the two then give the same names.
   */
  lemma OrdersAgree(db: Db, plugins: Plugins)
    requires Consistent(db) && Mirrored(db, plugins)
    ensures ResolutionOrder(db).Success? <==>
            && AllBare(db) && TrustRespected(StoredRoutes(db))
            && BuiltOrder(plugins, None, Success(Kahn.Order(PluginGraph(plugins))))
    ensures ResolutionOrder(db).Success? ==>
              BoltRegistry.PluginNames(ResolutionOrder(db).value) == Kahn.Order(PluginGraph(plugins))
  {
    hide RouteRef.String, Consistent, Mirrored, Stored, AllPresent, TrustRespected, ReqGraph, PluginGraph, BuiltOrder, Resolve,
      Kahn.Order, DistinctRefs, Database.List, Bare;
    if !AllBare(db) {
      var r :| Stored(db.routes, r) && !Bare(r);
      var d := Constrained(r);
      OddNameNeverResolves(db, r, d);
    } else {
      StoredRoutesExact(db);
      ResolvesIff(StoredRoutes(db));
      if TrustRespected(StoredRoutes(db)) { BareOrdersAgree(db, plugins); }
    }
  }

  lemma Constrained(r: Route) returns (d: RouteRef)
    requires !Bare(r)
    ensures d in r.requirements && !NameOk(d.name)
  {
    d :| d in r.requirements && '@' in d.name;
  }

  lemma RouteCount(db: Db, plugins: Plugins)
    requires Consistent(db) && Mirrored(db, plugins) && AllBare(db)
    ensures |StoredRoutes(db)| == |plugins|
  {
    hide RouteRef.String, Consistent, Mirrored, Stored, StoredRoutes, DistinctRefs, Keys, RequirementsOf, Needs, Named;
    var l := StoredRoutes(db);
    StoredRoutesExact(db);
    DistinctIffCount(l);
    ReqGraphNodes(l);
    GraphsAgree(db, plugins);
    PrefixedCount(PREFIX, PluginGraph(plugins).Keys);
    assert PluginGraph(plugins).Keys == plugins.Keys && |plugins.Keys| == |plugins|;
    assert Keys(l) == PrefixedSet(PREFIX, plugins.Keys);
  }

  lemma NamesOfOrder(db: Db, plugins: Plugins)
    requires Consistent(db) && Mirrored(db, plugins) && AllBare(db) && Resolve(StoredRoutes(db)).Success?
    ensures BoltRegistry.PluginNames(Resolve(StoredRoutes(db)).value) == Kahn.Order(PluginGraph(plugins))
  {
    hide RouteRef.String, Consistent, Mirrored, Stored, StoredRoutes, ReqGraph, PluginGraph, Kahn.Order, FirstFault, Index,
      DistinctRefs, SortedRoutes, Kahn.PrefixedGraph, Route.Key;
    var order, names := Resolve(StoredRoutes(db)).value, Kahn.Order(PluginGraph(plugins));
    StoredRoutesExact(db);
    SortedRoutesKeys(StoredRoutes(db));
    GraphsAgree(db, plugins);
    Kahn.OrderPrefixed(PREFIX, PluginGraph(plugins));
    assert KeySeq(order) == Prefixed(PREFIX, names);
    forall i | 0 <= i < |order| ensures order[i].typ == PLUGIN && order[i].name == names[i] {
      assert order[i] in order;
      MirroredKey(db, plugins, order[i]);
      assert KeySeq(order)[i] == PREFIX + names[i];
      PrefixInjective(PREFIX, order[i].name, names[i]);
    }
    PluginNamesOf(order, names);
  }
}

/** Registries on which the manager's own sort and the order built through the registry part ways. */
module StartupGaps {
  import opened Wrappers
  import opened Lexical
  import opened Graph
  import opened Routes
  import opened Database
  import opened IndexTheorems
  import opened RegistryTheorems
  import opened Resolver
  import opened ResolverTheorems
  import opened RegistryGaps
  import opened Lifecycle
  import opened LifecycleTheorems
  import opened LifecycleOrders
  import opened LifecycleShutdown
  import opened LifecycleRuns
  import opened LifecycleGaps
  import opened StartupAgreement
  import opened RegistryStartup
  import BoltRegistry
  import Kahn

  lemma CompleteIf(g: Graph)
    requires forall n :: n in g ==> n in Kahn.Order(g)
    ensures |Kahn.Order(g)| == |g|
  {
    hide Kahn.Order;
    Kahn.OrderTopological(g);
    assert Elems(Kahn.Order(g)) == g.Keys;
    DistinctSize(Kahn.Order(g));
    assert |g.Keys| == |g|;
  }

  // ----- a version constraint -----

  /** `b` requires `a`, in any version from 1 on. */
  function Constraining(): Plugins {
    map["a" := Plain("a", []), "b" := Plain("b", ["a@1"])]
  }

  lemma ConstrainedNeeds()
    ensures Needs(Constraining()["a"]) == {} && Needs(Constraining()["b"]) == {"a"}
  {
    var dep: string := "a@1";
    assert AtSign(dep) == 1 && dep[..1] == "a";
    assert ParseDependency(dep) == Some("a");
    assert dep in Constraining()["b"].manifest.required;
  }

  lemma ConstrainedGraph()
    ensures PluginGraph(Constraining()) == map["a" := {}, "b" := {"a"}] && RequirementsLoaded(Constraining())
  {
    hide Needs;
    ConstrainedNeeds();
    var plugins := Constraining();
    assert Named([]) == {};
    hide Named;
    assert plugins.Keys == {"a", "b"};
    forall n | n in plugins ensures PluginGraph(plugins)[n] == Needs(plugins[n]) {}
  }

  lemma ConstrainedOrder()
    ensures BuiltOrder(Constraining(), None, Success(Kahn.Order(PluginGraph(Constraining()))))
  {
    hide Kahn.Order, RequirementsLoaded, PluginGraph;
    ConstrainedGraph();
    var g := PluginGraph(Constraining());
    Kahn.OrderMaximal(g, "a");
    Kahn.OrderMaximal(g, "b");
    CompleteIf(g);
    assert |g.Keys| == |g| && g.Keys == Constraining().Keys && |Constraining().Keys| == |Constraining()|;
  }

  lemma ConstrainedName()
    ensures !NameOk("a@1") && NameOk("a") && NameOk("b") && PluginRef("a") != PluginRef("b")
  {
    var dep: string := "a@1";
    assert dep[1] == '@' && '@' in dep;
    assert "a"[0] != "b"[0];
  }

  lemma ConstrainingMirrored(db: Db, a: Route, b: Route)
    requires a == Sample("plugin", "a", [], TRUST_L1) && b == Sample("plugin", "b", [PluginRef("a@1")], TRUST_L1)
    requires forall r :: Stored(db.routes, r) <==> r in {a, b}
    ensures Mirrored(db, Constraining())
  {
    hide Stored;
    assert Names(a.requirements) == [] && Names(b.requirements) == ["a@1"];
    assert Stored(db.routes, a) && Stored(db.routes, b);
  }

  /** Both plugins are registered as they are declared. The manager's own sort orders them; the registry does not resolve. */
  lemma ConstraintSplitsSorts()
    ensures var db := RunOps(EmptyDb(), [OpRegister(Sample("plugin", "a", [], TRUST_L1)),
                                         OpRegister(Sample("plugin", "b", [PluginRef("a@1")], TRUST_L1))]);
            && Consistent(db) && Mirrored(db, Constraining()) && ResolutionOrder(db).Failure?
            && BuiltOrder(Constraining(), None, Success(Kahn.Order(PluginGraph(Constraining()))))
  {
    hide Consistent, Validates, RouteRef.String, Has, Lookup, WithDefaults, AllL1, BuiltOrder, ResolutionOrder, NameOk, Mirrored, Constraining;
    var a, b := Sample("plugin", "a", [], TRUST_L1), Sample("plugin", "b", [PluginRef("a@1")], TRUST_L1);
    ConstrainedName();
    SampleValid("plugin", "a", [], TRUST_L1);
    SampleValid("plugin", "b", [PluginRef("a@1")], TRUST_L1);
    NothingThere();
    var one := AnotherRegistered(EmptyDb(), a);
    var db := AnotherRegistered(one, b);
    RunTwo(OpRegister(a), OpRegister(b));
    assert forall r :: Stored(db.routes, r) <==> r in {a, b};
    ConstrainingMirrored(db, a, b);
    assert b.requirements[0] == PluginRef("a@1");
    OddNameNeverResolves(db, b, PluginRef("a@1"));
    ConstrainedOrder();
  }

  // ----- a borrowed name -----

  function ServiceZ(): RouteRef {
    RouteRef("service", DEFAULT_DOMAIN, "z")
  }

  /** Plugin `a` requires the service `z`, and plugin `z` requires plugin `a`. */
  function Sharing(): seq<Route> {
    [Sample("service", "z", [], TRUST_L1), Sample("plugin", "a", [ServiceZ()], TRUST_L1),
     Sample("plugin", "z", [PluginRef("a")], TRUST_L1)]
  }

  /** What the manager reads back. */
  function Shared(): Plugins {
    map["a" := Plain("a", ["z"]), "z" := Plain("z", ["a"])]
  }

  lemma SharedRefs()
    ensures Sharing()[0].Ref() == ServiceZ() && Sharing()[1].Ref() == PluginRef("a") && Sharing()[2].Ref() == PluginRef("z")
    ensures ServiceZ().String() != PluginRef("a").String() && ServiceZ().String() != PluginRef("z").String()
    ensures PluginRef("a").String() != PluginRef("z").String()
  {
    assert ServiceZ().String()[0] == 's' && PluginRef("a").String()[0] == 'p' && PluginRef("z").String()[0] == 'p';
    var prefix: string := PLUGIN + "/" + DEFAULT_DOMAIN + "/";
    assert PluginRef("a").String()[|prefix|] == 'a' && PluginRef("z").String()[|prefix|] == 'z';
  }

  /** Three routes, each but the first requiring the one before. */
  ghost predicate Chain(l: seq<Route>, s: Route, a: Route, z: Route) {
    && DistinctRefs(l) && (forall r :: r in l <==> r in {s, a, z})
    && s.requirements == [] && a.requirements == [s.Ref()] && z.requirements == [a.Ref()]
    && s.trustLevel == a.trustLevel == z.trustLevel
    && s.Key() != a.Key() && s.Key() != z.Key() && a.Key() != z.Key()
  }

  lemma ChainGraph(l: seq<Route>, s: Route, a: Route, z: Route)
    requires Chain(l, s, a, z)
    ensures AllPresent(l) && TrustRespected(l)
    ensures var g := ReqGraph(l);
            g.Keys == {s.Key(), a.Key(), z.Key()} && g[s.Key()] == {} && g[a.Key()] == {s.Key()} && g[z.Key()] == {a.Key()}
  {
    hide RouteRef.String, DistinctRefs;
    assert s in l && a in l && z in l;
    assert a.requirements[0] == s.Ref() && z.requirements[0] == a.Ref();
    forall r, d | r in l && d in r.requirements ensures d.String() in {s.Key(), a.Key()} {}
    assert Keys(l) == {s.Key(), a.Key(), z.Key()};
    assert RequirementsOf(l, s.Key()) == {};
    assert RequirementsOf(l, a.Key()) == {s.Key()};
    assert RequirementsOf(l, z.Key()) == {a.Key()};
  }

  lemma ChainResolves(l: seq<Route>, s: Route, a: Route, z: Route)
    requires Chain(l, s, a, z)
    ensures Resolve(l).Success?
  {
    hide Resolve, AllPresent, TrustRespected, ReqGraph, Acyclic;
    ChainGraph(l, s, a, z);
    SharingAcyclic(ReqGraph(l), s.Key(), a.Key(), z.Key());
    ResolvesIff(l);
  }

  /** Any registry that stores exactly these routes resolves. */
  lemma SharingResolves(db: Db)
    requires Consistent(db) && forall r :: Stored(db.routes, r) <==> r in Sharing()
    ensures ResolutionOrder(db).Success?
  {
    hide Consistent, Stored, RouteRef.String, Database.List, DistinctRefs, Resolve;
    StoredRoutesExact(db);
    SharedRefs();
    ChainResolves(StoredRoutes(db), Sharing()[0], Sharing()[1], Sharing()[2]);
  }

  lemma SharingAcyclic(g: Graph, s: string, a: string, z: string)
    requires g.Keys == {s, a, z} && g[s] == {} && g[a] == {s} && g[z] == {a}
    ensures Acyclic(g)
  {
    hide Kahn.Order, Acyclic;
    Kahn.OrderMaximal(g, s);
    Kahn.OrderMaximal(g, a);
    Kahn.OrderMaximal(g, z);
    CompleteIf(g);
    Kahn.OrderCompleteIff(g);
  }

  /** The manager takes the service for the plugin of that name, so that no order puts all requirements first. */
  lemma SharedNeeds(order: seq<string>)
    requires Elems(order) == {"a", "z"}
    ensures !Respects(Shared(), order)
  {
    var plugins := Shared();
    assert AtSign("a") == 1 && AtSign("z") == 1;
    assert ParseDependency("a") == Some("a") && ParseDependency("z") == Some("z");
    assert "z" in plugins["a"].manifest.required && "a" in plugins["z"].manifest.required;
    assert "z" in Needs(plugins["a"]) && "a" in Needs(plugins["z"]);
    assert "a" in Elems(order) && "z" in Elems(order);
    hide Needs, First;
  }

  /** A registry that resolves and backs the loaded plugins, and whose order still does not put all requirements first. */
  lemma SharedNameLeavesOrder(order: seq<string>)
    ensures var l := Sharing();
            var db := RunOps(EmptyDb(), [OpRegister(l[0]), OpRegister(l[1]), OpRegister(l[2])]);
            && Consistent(db) && ResolutionOrder(db).Success? && Backed(db, Shared()) && NoHomonym(db, Shared())
            && (BuiltOrder(Shared(), Some(Success(BoltRegistry.PluginNames(ResolutionOrder(db).value))), Success(order)) ==>
                  !Respects(Shared(), order))
  {
    hide Consistent, Validates, RouteRef.String, Has, Lookup, WithDefaults, AllL1, BuiltOrder, ResolutionOrder, Respects, Backed, NoHomonym, Shared;
    SharedRefs();
    var l := Sharing();
    var db := SharingStored();
    SharingResolves(db);
    SharingBacked(db);
    var names := BoltRegistry.PluginNames(ResolutionOrder(db).value);
    if BuiltOrder(Shared(), Some(Success(names)), Success(order)) {
      BuiltOrderCovers(Shared(), Some(Success(names)), order);
      assert Shared().Keys == {"a", "z"} by { SharedKeys(); }
      SharedNeeds(order);
    }
  }

  lemma SharedKeys()
    ensures Shared().Keys == {"a", "z"}
  {}

  lemma SharingStored() returns (db: Db)
    ensures db == RunOps(EmptyDb(), [OpRegister(Sharing()[0]), OpRegister(Sharing()[1]), OpRegister(Sharing()[2])])
    ensures Consistent(db) && forall r :: Stored(db.routes, r) <==> r in Sharing()
  {
    hide Consistent, Validates, RouteRef.String, Has, Lookup, WithDefaults, AllL1;
    SharedRefs();
    assert NameOk("a") && NameOk("z");
    SampleValid("service", "z", [], TRUST_L1);
    SampleValid("plugin", "a", [ServiceZ()], TRUST_L1);
    SampleValid("plugin", "z", [PluginRef("a")], TRUST_L1);
    NothingThere();
    var l := Sharing();
    var one := AnotherRegistered(EmptyDb(), l[0]);
    var two := AnotherRegistered(one, l[1]);
    db := AnotherRegistered(two, l[2]);
    RunThree(OpRegister(l[0]), OpRegister(l[1]), OpRegister(l[2]));
  }

  lemma SharingBacked(db: Db)
    requires forall r :: Stored(db.routes, r) <==> r in Sharing()
    ensures Backed(db, Shared()) && NoHomonym(db, Shared())
  {
    hide Stored;
    var l := Sharing();
    assert Names(l[1].requirements) == ["z"] && Names(l[2].requirements) == ["a"];
    assert l[1] in l && l[2] in l;
  }

  // ----- a homonym in another domain -----

  function Native(domain: string, name: string, requirements: seq<RouteRef>): Route {
    Sample("plugin", name, requirements, TRUST_L1).(domain := domain, engine := "native")
  }

  /** Plugin `a`, plugin `b` that requires it, and a plugin `a` of another domain that requires `b`. */
  function Homonyms(): seq<Route> {
    [Native(DEFAULT_DOMAIN, "a", []), Native(DEFAULT_DOMAIN, "b", [PluginRef("a")]), Native("zzz", "a", [PluginRef("b")])]
  }

  function HomonymDb(): Db {
    RunOps(EmptyDb(), [OpRegister(Homonyms()[0]), OpRegister(Homonyms()[1]), OpRegister(Homonyms()[2])])
  }

  lemma NativeValid(domain: string, name: string, requirements: seq<RouteRef>)
    requires domain in {"aroute", "zzz"} && name in {"a", "b"} && forall d :: d in requirements ==> d.typ == "plugin" && d.name != ""
    ensures Validates(Native(domain, name, requirements)) && WithDefaults(Native(domain, name, requirements)) == Native(domain, name, requirements)
  {
    assert NameOk("a") && NameOk("b") && DomainOk("zzz");
    SampleValid("plugin", name, requirements, TRUST_L1);
    assert ["", "native", "l1", "grpc", "l2", "wasm", "l3"][1] == "native";
  }

  lemma HomonymRefs()
    ensures var l := Homonyms();
            && l[0].Ref() == PluginRef("a") && l[1].Ref() == PluginRef("b") && l[2].Ref() == RouteRef(PLUGIN, "zzz", "a")
            && l[0].Key() != l[1].Key() && l[0].Key() != l[2].Key() && l[1].Key() != l[2].Key()
  {
    var prefix: string := PLUGIN + "/" + DEFAULT_DOMAIN + "/";
    assert PluginRef("a").String()[|prefix|] == 'a' && PluginRef("b").String()[|prefix|] == 'b';
    var typ: string := PLUGIN + "/";
    assert PluginRef("a").String()[|typ|] == 'a' && PluginRef("b").String()[|typ|] == 'a' && RouteRef(PLUGIN, "zzz", "a").String()[|typ|] == 'z';
  }

  lemma HomonymsStored()
    ensures Consistent(HomonymDb()) && forall r :: Stored(HomonymDb().routes, r) <==> r in Homonyms()
  {
    hide Consistent, Validates, RouteRef.String, Has, Lookup, WithDefaults, AllL1, Native;
    HomonymRefs();
    NativeValid(DEFAULT_DOMAIN, "a", []);
    NativeValid(DEFAULT_DOMAIN, "b", [PluginRef("a")]);
    NativeValid("zzz", "a", [PluginRef("b")]);
    var l := Homonyms();
    assert l[0].Ref() != l[1].Ref() && l[0].Ref() != l[2].Ref() && l[1].Ref() != l[2].Ref();
    assert l[0].trustLevel == l[1].trustLevel == l[2].trustLevel == TRUST_L1 by { NativeLevels(); }
    NothingThere();
    var one := AnotherRegistered(EmptyDb(), l[0]);
    var two := AnotherRegistered(one, l[1]);
    var three := AnotherRegistered(two, l[2]);
    RunThree(OpRegister(l[0]), OpRegister(l[1]), OpRegister(l[2]));
  }

  lemma NativeLevels()
    ensures forall domain, name, requirements :: Native(domain, name, requirements).trustLevel == TRUST_L1
  {}

  /** A chain of three has one order only. */
  lemma ChainOrder(l: seq<Route>, s: Route, a: Route, z: Route)
    requires Chain(l, s, a, z)
    ensures Resolve(l) == Success([s, a, z])
  {
    hide Resolve, DistinctRefs, RouteRef.String, Route.Key;
    ChainResolves(l, s, a, z);
    ResolvedOrderIsValid(l);
    ResolvedKeysOf(l);
    var o := Resolve(l).value;
    assert forall r :: r in o <==> r in multiset(o);
    assert forall r :: r in l <==> r in multiset(l);
    OnlyChain(o, s, a, z);
  }

  lemma ResolvedKeysOf(l: seq<Route>)
    requires Resolve(l).Success?
    ensures DistinctRefs(Resolve(l).value)
  {
    hide FirstFault, Index, Kahn.Order, SortedRoutes, ReqGraph, RouteRef.String, Route.Key;
    SortedDistinct(l);
  }

  lemma OnlyChain(o: seq<Route>, s: Route, a: Route, z: Route)
    requires DistinctRefs(o) && forall r :: r in o <==> r in {s, a, z}
    requires s.requirements == [] && a.requirements == [s.Ref()] && z.requirements == [a.Ref()]
    requires s.Key() != a.Key() && s.Key() != z.Key() && a.Key() != z.Key()
    requires forall i, d :: 0 <= i < |o| && d in o[i].requirements ==> d.String() in KeySeq(o[..i])
    ensures o == [s, a, z]
  {
    hide RouteRef.String;
    var keys := KeySeq(o);
    KeySeqElems(o);
    DistinctSize(keys);
    assert Keys(o) == {s.Key(), a.Key(), z.Key()};
    assert |o| == 3;
    assert a.requirements[0] == s.Ref() && z.requirements[0] == a.Ref();
    assert KeySeq(o[..0]) == [] && KeySeq(o[..1]) == [o[0].Key()] && o[0] in o && o[1] in o && o[2] in o;
    assert o[0] == s;
    assert keys[0] == o[0].Key() && keys[1] == o[1].Key() && keys[2] == o[2].Key();
    assert o[1] == a;
    assert o[2] == z;
  }

  /** The registry names `a` twice. */
  lemma HomonymOrder()
    ensures Consistent(HomonymDb()) && ResolutionOrder(HomonymDb()) == Success(Homonyms())
    ensures BoltRegistry.PluginNames(Homonyms()) == ["a", "b", "a"]
  {
    hide Consistent, Stored, RouteRef.String, Database.List, DistinctRefs, Resolve, HomonymDb;
    var db, l := HomonymDb(), Homonyms();
    HomonymsStored();
    HomonymRefs();
    StoredRoutesExact(db);
    assert forall r :: r in StoredRoutes(db) <==> r in {l[0], l[1], l[2]};
    ChainOrder(StoredRoutes(db), l[0], l[1], l[2]);
    assert l[..3] == l && l[..2] == [l[0], l[1]] && l[..1] == [l[0]];
    var two, one: seq<Route> := [l[0], l[1]], [l[0]];
    assert two[..1] == one && one[..0] == [];
    assert BoltRegistry.PluginNames(one) == ["a"] && BoltRegistry.PluginNames(two) == ["a", "b"];
  }

  /** What is read from that registry, if everything is enabled and loads. */
  function HomonymEntries(): seq<Entry> {
    [Entry(ManifestOf(Homonyms()[0]), Some(true), true), Entry(ManifestOf(Homonyms()[1]), Some(true), true),
     Entry(ManifestOf(Homonyms()[2]), Some(true), true)]
  }

  lemma HomonymsLoaded()
    ensures LoadAll(map[], HomonymEntries()) == Two()
  {
    var l, e := Homonyms(), HomonymEntries();
    assert Names([]) == [] && Names([PluginRef("a")]) == ["a"];
    assert ManifestOf(l[0]) == Plain("a", []).manifest && ManifestOf(l[1]) == Plain("b", ["a"]).manifest && ManifestOf(l[2]).name == "a";
    var one := LoadOne(map[], e[0]);
    var two := LoadOne(one, e[1]);
    assert two == Two() && LoadOne(two, e[2]) == two;
    assert e[1..][1..] == [e[2]] && [e[2]][1..] == [];
    assert e[1..] == [e[1], e[2]];
  }

  lemma TwiceOrder()
    ensures var order := ["a", "b", "a"];
            Elems(order) == {"a", "b"} && Reversed(order) == order && order[..1] == ["a"] && First(order, "a") == 0
  {
    var order := ["a", "b", "a"];
    assert order[0] == "a" && order[1] == "b";
    FirstAtA(order);
  }

  /** Any order that holds `a` first and last. */
  lemma TwiceStarted(order: seq<string>, yes: Outcomes)
    requires forall i :: yes(i)
    requires Elems(order) == {"a", "b"} && Reversed(order) == order && |order| > 0 && order[..1] == ["a"] && First(order, "a") == 0
    ensures var now := Started(Two(), order, yes, yes);
            DepClosed(now) && !DependentsFirst(now, order) && !DepClosed(StopAll(now, Reversed(order)[..1], yes).plugins)
  {
    hide Started, Needs, StopAll, First, Reversed, Elems;
    TwoStart(order, yes, yes);
    var now := Started(Two(), order, yes, yes);
    assert !Before(order, "b", "a");
    ActiveWhileStopping(now, order, yes, 1, "a");
    ActiveWhileStopping(now, order, yes, 1, "b");
    var then' := StopAll(now, Reversed(order)[..1], yes).plugins;
    assert ActiveIn(then', "b") && "a" in Needs(then'["b"]) && !ActiveIn(then', "a");
  }

  lemma FirstAtA(order: seq<string>)
    requires order != [] && order[0] == "a"
    ensures First(order, "a") == 0
  {}

  /**
   A manager whose plugins and whose order come from that registry, in which every requirement is a plugin: the shutdown
   stops `a` first, with `b` still running above it.
   */
  lemma HomonymStopsOutOfOrder(yes: Outcomes)
    requires forall i :: yes(i)
    ensures var ops := [OpLoad(HomonymEntries()), OpStart(Some(Success(["a", "b", "a"])), Success(["a", "b", "a"]), yes, yes)];
            var now := Run(ops);
            && Consistent(HomonymDb()) && (forall r, d :: Stored(HomonymDb().routes, r) ==> !Borrows(r, d))
            && SaneRun(ops) && (forall i :: 0 <= i < |ops| ==> Over(HomonymDb(), ops[i])) && !now.down && DepClosed(now.plugins)
            && !DependentsFirst(now.plugins, now.order) && !DepClosed(StopAll(now.plugins, Reversed(now.order)[..1], yes).plugins)
  {
    hide Consistent, Stored, Started, StopAll, BuiltOrder, ResolutionOrder, HomonymDb, DepClosed, DependentsFirst, Base, FromStored, LoadAll, HomonymEntries;
    var order := ["a", "b", "a"];
    var ops := [OpLoad(HomonymEntries()), OpStart(Some(Success(order)), Success(order), yes, yes)];
    HomonymOrder();
    HomonymsLoaded();
    TwiceOrder();
    TwiceStarted(order, yes);
    EntriesStored();
    RunUnfold(ops, 0);
    RunUnfold(ops, 1);
    assert Run(ops[..0]) == Sys(map[], [], false);
    assert ops[..2] == ops && Run(ops[..1]) == Sys(Two(), [], false);
    TwiceBuilt();
    forall i | 0 <= i < |ops| ensures Sane(Run(ops[..i]), ops[i]) {}
  }

  lemma EntriesStored()
    ensures forall e :: e in HomonymEntries() ==> FromStored(HomonymDb(), e)
    ensures forall r, d :: Stored(HomonymDb().routes, r) ==> !Borrows(r, d)
  {
    hide Stored, HomonymDb, ManifestOf;
    HomonymsStored();
    var l := Homonyms();
    assert l[0] in l && l[1] in l && l[2] in l;
  }

  lemma TwiceBuilt()
    ensures BuiltOrder(Two(), Some(Success(["a", "b", "a"])), Success(["a", "b", "a"]))
  {
    var names, two, one: seq<string> := ["a", "b", "a"], ["a", "b"], ["a"];
    assert names[..2] == two && two[..1] == one && one[..0] == [];
    assert Loaded(Two(), one) == one && Loaded(Two(), two) == two && Loaded(Two(), names) == names;
    assert names[..3] == names && names[3..] == [];
    assert names[0] in Elems(names) && names[1] in Elems(names);
    assert Two().Keys - Elems(names) == {};
  }
}

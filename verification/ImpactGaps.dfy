/** Runs of registrations after which the impact analyses contradict each other, or the description of one of them. */
module ImpactGaps {
  import opened Routes
  import opened Database
  import opened IndexTheorems
  import opened RegistryTheorems
  import opened ResolverTheorems
  import opened RegistryGaps
  import opened Graph
  import opened Resolver
  import opened Impact
  import opened ImpactTheorems
  import opened BoltRegistry

  function Service(name: string): RouteRef {
    RouteRef("service", DEFAULT_DOMAIN, name)
  }

  /** The plugin `a`. */
  function Base(): Route {
    Sample("plugin", "a", [], TRUST_L1)
  }

  /** A plugin `d` that requires `a` and the given references. */
  function Dependent(others: seq<RouteRef>): Route {
    Sample("plugin", "d", [PluginRef("a")] + others, TRUST_L1)
  }

  /** A plugin `p` that provides service `x`. */
  function Provider(): Route {
    Sample("plugin", "p", [], TRUST_L1).(provided := [Service("x")])
  }

  function Registrations(others: seq<RouteRef>): seq<Op> {
    [OpRegister(Base()), OpRegister(Provider()), OpRegister(Dependent(others))]
  }

  lemma DistinctNames()
    ensures Base().Ref() == PluginRef("a") && Provider().Ref() == PluginRef("p")
    ensures forall others :: Dependent(others).Ref() == PluginRef("d") && Dependent(others).requirements == [PluginRef("a")] + others
    ensures PluginRef("a") != PluginRef("p") && PluginRef("a") != PluginRef("d") && PluginRef("p") != PluginRef("d")
    ensures Base().Key() != Dependent([]).Key() && Base().Key() != Provider().Key()
    ensures forall name :: Service(name).String() != Base().Key() && Service(name) != PluginRef("a") && Service(name) != PluginRef("p")
                           && Service(name) != PluginRef("d")
    ensures Service("x").String() != Service("y").String()
    ensures PluginRef("p").String() != Base().Key() && PluginRef("p").String() != Service("x").String()
  {
    assert "a"[0] != "p"[0] && "a"[0] != "d"[0] && "p"[0] != "d"[0] && "x"[0] != "y"[0];
    var prefix: string := PLUGIN + "/" + DEFAULT_DOMAIN + "/";
    forall m: string, n: string | |m| == 1 && |n| == 1 && m[0] != n[0] ensures PluginRef(m).String() != PluginRef(n).String() {
      assert PluginRef(m).String()[|prefix|] == m[0] && PluginRef(n).String()[|prefix|] == n[0];
    }
    forall name ensures Service(name).String() != Base().Key() && Service(name).String() != PluginRef("p").String() {
      assert Service(name).String()[0] == 's' && Base().Key()[0] == 'p' && PluginRef("p").String()[0] == 'p';
    }
    var services: string := "service/" + DEFAULT_DOMAIN + "/";
    assert Service("x").String()[|services|] == 'x' && Service("y").String()[|services|] == 'y';
  }

  /** The three registrations are accepted and stored as they are. */
  lemma Reached(others: seq<RouteRef>) returns (db: Db)
    requires forall q :: q in others ==> q in {PluginRef("p"), Service("x"), Service("y")}
    ensures db == RunOps(EmptyDb(), Registrations(others)) && Consistent(db)
    ensures forall r :: Stored(db.routes, r) <==> r in {Base(), Provider(), Dependent(others)}
    ensures forall x :: Has(db.routes, x) <==> x in {PluginRef("a"), PluginRef("p"), PluginRef("d")}
  {
    hide Consistent, Validates, RouteRef.String, Has, Lookup, WithDefaults, AllL1;
    DistinctNames();
    assert NameOk("a") && NameOk("p") && NameOk("d");
    SampleValid("plugin", "a", [], TRUST_L1);
    SampleValid("plugin", "p", [], TRUST_L1);
    SampleValid("plugin", "d", [PluginRef("a")] + others, TRUST_L1);
    ProviderValid();
    NothingThere();
    var one := AnotherRegistered(EmptyDb(), Base());
    var two := AnotherRegistered(one, Provider());
    db := AnotherRegistered(two, Dependent(others));
    RunThree(OpRegister(Base()), OpRegister(Provider()), OpRegister(Dependent(others)));
  }

  lemma ProviderValid()
    requires Validates(Sample("plugin", "p", [], TRUST_L1))
    ensures Validates(Provider()) && WithDefaults(Provider()) == Provider()
  {
    assert RouteType("service") by { assert ROUTE_TYPES[1] == "service"; }
  }

  lemma Provided(q: RouteRef)
    ensures q in Provider().provided && Base().Key() != Provider().Key() ==> Provides(Provider(), Base().Key(), q)
    ensures q.String() != Service("x").String() ==> !Provides(Provider(), Base().Key(), q)
    ensures forall others :: !Provides(Base(), Base().Key(), q) && !Provides(Dependent(others), Base().Key(), q)
  {
    hide RouteRef.String;
    assert Strings([Service("x")]) == [Service("x").String()];
    forall r: Route | r.provided == [] ensures !Provides(r, Base().Key(), q) { assert Strings(r.provided) == []; }
    forall others ensures !Provides(Dependent(others), Base().Key(), q) { assert Dependent(others).provided == []; }
  }

  lemma StartsFromBase(others: seq<RouteRef>)
    ensures Base().Key() in Dependent(others).DepKeys() && Dependent(others).Key() != Base().Key()
  {
    DistinctNames();
    hide RouteRef.String;
    var d := Dependent(others);
    assert d.requirements[0] == PluginRef("a") && d.DepKeys()[0] == Base().Key();
    assert d.Key() == Dependent([]).Key();
  }

  /** `d` also requires the stored `p`, which provides something else: only the search over the list orphans it. */
  lemma OrphanedByListOnly(bfs: RemovalImpact)
    requires ImpactExact(Database.List(RunOps(EmptyDb(), Registrations([PluginRef("p")])).routes, NO_FILTER), Base().Key(), bfs)
    ensures var db, d, a := RunOps(EmptyDb(), Registrations([PluginRef("p")])), Dependent([PluginRef("p")]).Ref(), Base().Ref();
            d in bfs.orphaned && d !in OrphanedBy(db, DependentsOf(db, a), a)
  {
    hide RouteRef.String, Consistent, Stored, Has, ImpactExact, Provides, MetFrom, Visiting, RunOps, Database.List, OrphanedBy, Route.DepKeys;
    var d := Dependent([PluginRef("p")]);
    DistinctNames();
    var db := Reached([PluginRef("p")]);
    StartsFromBase([PluginRef("p")]);
    DirectIsMet(Base().Key(), bfs, d);
    VerdictsAgreeIff(db, Base(), bfs, d, 0);
    forall q { Provided(q); }
    assert d.requirements[1] == PluginRef("p") && PluginRef("p") in d.requirements;
    assert OtherStored(db, Base().Key(), d);
    assert forall q :: q in d.requirements ==> q == PluginRef("a") || q == PluginRef("p");
    assert !OtherProvided(db, Base().Key(), d);
  }

  /** `d` also requires service `x`, which is not stored but provided by `p`: only the search over the index orphans it. */
  lemma OrphanedByIndexOnly(bfs: RemovalImpact)
    requires ImpactExact(Database.List(RunOps(EmptyDb(), Registrations([Service("x")])).routes, NO_FILTER), Base().Key(), bfs)
    ensures var db, d, a := RunOps(EmptyDb(), Registrations([Service("x")])), Dependent([Service("x")]).Ref(), Base().Ref();
            d !in bfs.orphaned && d in OrphanedBy(db, DependentsOf(db, a), a)
  {
    hide RouteRef.String, Consistent, Stored, Has, ImpactExact, Provides, MetFrom, Visiting, RunOps, Database.List, OrphanedBy, Route.DepKeys;
    var d := Dependent([Service("x")]);
    DistinctNames();
    var db := Reached([Service("x")]);
    StartsFromBase([Service("x")]);
    DirectIsMet(Base().Key(), bfs, d);
    VerdictsAgreeIff(db, Base(), bfs, d, 0);
    forall q { Provided(q); }
    assert d.requirements[1] == Service("x") && Service("x") in d.requirements && Service("x") in Provider().provided;
    assert OtherProvided(db, Base().Key(), d);
    assert forall q :: q in d.requirements ==> q == PluginRef("a") || q == Service("x");
    assert !OtherStored(db, Base().Key(), d);
  }

  lemma ListedAsStored(db: Db)
    requires Consistent(db)
    ensures DistinctRefs(Database.List(db.routes, NO_FILTER))
    ensures forall r :: r in Database.List(db.routes, NO_FILTER) <==> Stored(db.routes, r)
  {
    hide Consistent, Stored, DistinctRefs, WellBucketed, Keyed;
    ConsistentBuckets(db);
    ListExact(db.routes, NO_FILTER);
  }

  /** `d` also requires services `x` and `y`, of which only `x` is provided: not each has a provider, and `d` is not orphaned. */
  lemma OneProviderIsEnough(bfs: RemovalImpact)
    requires ImpactExact(Database.List(RunOps(EmptyDb(), Registrations([Service("x"), Service("y")])).routes, NO_FILTER), Base().Key(), bfs)
    ensures var all, d := Database.List(RunOps(EmptyDb(), Registrations([Service("x"), Service("y")])).routes, NO_FILTER),
                          Dependent([Service("x"), Service("y")]);
            d in all && d.Ref() !in bfs.orphaned && !EachProvided(all, Base().Key(), d)
  {
    hide RouteRef.String, Consistent, Stored, Has, ImpactExact, Provides, MetFrom, Visiting, RunOps, Database.List, DistinctRefs, Route.DepKeys;
    var others := [Service("x"), Service("y")];
    var d := Dependent(others);
    DistinctNames();
    var db := Reached(others);
    ListedAsStored(db);
    StartsFromBase(others);
    DirectIsMet(Base().Key(), bfs, d);
    EachReadingIff(Database.List(db.routes, NO_FILTER), Base().Key(), bfs, d, 0);
    forall q { Provided(q); }
    assert d.requirements[1] == Service("x") && d.requirements[2] == Service("y");
    assert Service("x") in d.requirements && Service("y") in d.requirements && Service("x") in Provider().provided;
    assert Provides(Provider(), Base().Key(), Service("x"));
  }

  /** `d` requires nothing else, so that there is nothing left to provide, and is orphaned. */
  lemma NoOtherRequirementOrphans(bfs: RemovalImpact)
    requires ImpactExact(Database.List(RunOps(EmptyDb(), Registrations([])).routes, NO_FILTER), Base().Key(), bfs)
    ensures var all, d := Database.List(RunOps(EmptyDb(), Registrations([])).routes, NO_FILTER), Dependent([]);
            d in all && d.Ref() in bfs.orphaned && EachProvided(all, Base().Key(), d)
  {
    hide RouteRef.String, Consistent, Stored, Has, ImpactExact, Provides, MetFrom, Visiting, RunOps, Database.List, DistinctRefs, Route.DepKeys;
    var d := Dependent([]);
    DistinctNames();
    var db := Reached([]);
    ListedAsStored(db);
    StartsFromBase([]);
    assert forall q :: q in d.requirements ==> q == PluginRef("a");
    DirectIsMet(Base().Key(), bfs, d);
    EachReadingIff(Database.List(db.routes, NO_FILTER), Base().Key(), bfs, d, 0);
  }

  // ----- an indirect dependent -----

  /** A plugin `e` that requires `d` alone. */
  function Indirect(): Route {
    Sample("plugin", "e", [PluginRef("d")], TRUST_L1)
  }

  lemma IndirectNames()
    ensures Base().Key() != Indirect().Key() && Base().Key() !in Indirect().DepKeys() && Dependent([]).Key() in Indirect().DepKeys()
    ensures Base().Ref() != Indirect().Ref() && Dependent([]).Ref() != Indirect().Ref() && Base().Ref() != Dependent([]).Ref()
    ensures Base().Key() in Dependent([]).DepKeys()
  {
    var prefix: string := PLUGIN + "/" + DEFAULT_DOMAIN + "/";
    assert PluginRef("a").String()[|prefix|] == 'a' && PluginRef("d").String()[|prefix|] == 'd' && PluginRef("e").String()[|prefix|] == 'e';
    assert "a"[0] != "e"[0] && "d"[0] != "e"[0] && "a"[0] != "d"[0];
    hide RouteRef.String;
    assert Indirect().DepKeys() == [PluginRef("d").String()];
    assert Dependent([]).DepKeys()[0] == PluginRef("a").String();
  }

  lemma ChainReached() returns (db: Db)
    ensures db == RunOps(EmptyDb(), [OpRegister(Base()), OpRegister(Dependent([])), OpRegister(Indirect())]) && Consistent(db)
    ensures forall r :: Stored(db.routes, r) <==> r in {Base(), Dependent([]), Indirect()}
  {
    hide Consistent, Validates, RouteRef.String, Has, Lookup, WithDefaults, AllL1;
    IndirectNames();
    assert NameOk("a") && NameOk("d") && NameOk("e");
    SampleValid("plugin", "a", [], TRUST_L1);
    SampleValid("plugin", "d", [PluginRef("a")] + [], TRUST_L1);
    SampleValid("plugin", "e", [PluginRef("d")], TRUST_L1);
    NothingThere();
    var one := AnotherRegistered(EmptyDb(), Base());
    var two := AnotherRegistered(one, Dependent([]));
    db := AnotherRegistered(two, Indirect());
    RunThree(OpRegister(Base()), OpRegister(Dependent([])), OpRegister(Indirect()));
  }

  lemma IndirectReaches(all: seq<Route>)
    requires Dependent([]) in all && Indirect() in all
    ensures Reaches(ReqGraph(all), Indirect().Key(), Base().Key())
  {
    hide RouteRef.String, ReqGraph, Route.DepKeys;
    IndirectNames();
    var g := ReqGraph(all);
    DependentsInList(all, Dependent([]).Key(), Indirect().Key());
    DependentsInList(all, Base().Key(), Dependent([]).Key());
    StepReaches(g, Dependent([]).Key(), Base().Key(), Base().Key());
    StepReaches(g, Indirect().Key(), Dependent([]).Key(), Base().Key());
  }

  /** `e` requires `d`, which requires `a`, and nothing is provided: only the search over the list orphans `e` with `a`. */
  lemma IndirectOrphanedByListOnly(bfs: RemovalImpact)
    requires var db := RunOps(EmptyDb(), [OpRegister(Base()), OpRegister(Dependent([])), OpRegister(Indirect())]);
             ImpactExact(Database.List(db.routes, NO_FILTER), Base().Key(), bfs)
    ensures var db, e, a := RunOps(EmptyDb(), [OpRegister(Base()), OpRegister(Dependent([])), OpRegister(Indirect())]), Indirect().Ref(), Base().Ref();
            e in bfs.orphaned && e !in OrphanedBy(db, DependentsOf(db, a), a)
  {
    hide RouteRef.String, Consistent, Stored, Has, ImpactExact, RunOps, Database.List, OrphanedBy, Route.DepKeys, MetFrom, Visiting, DistinctRefs, ReqGraph, Reaches;
    var db := ChainReached();
    var all := Database.List(db.routes, NO_FILTER);
    ListedAsStored(db);
    IndirectNames();
    IndirectReaches(all);
    var k := AffectedIsMet(all, Base().Key(), bfs, Indirect());
    VerdictsAgreeIff(db, Base(), bfs, Indirect(), k);
    var c := Visiting(Base().Key(), bfs)[k];
    forall q, r | Stored(db.routes, r) ensures !Provides(r, c, q) { assert Strings(r.provided) == []; }
  }
}

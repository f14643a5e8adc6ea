/** Runs of accepted writes, from the empty database, that leave trust broken or the indexes stale. */
module RegistryGaps {
  import opened Routes
  import opened Database
  import opened IndexTheorems
  import opened RegistryTheorems
  import opened TrustTheorems

  /** A default-domain route with nothing left to default. */
  function Sample(typ: string, name: string, requirements: seq<RouteRef>, level: TrustLevel): Route {
    Route(typ, DEFAULT_DOMAIN, name, "1", level, level, level, "", STATE_INACTIVE, true, requirements, [], "", [], [], 0,
          TRUST_ALLOW, DEFAULT_POLICY)
  }

  lemma SampleValid(typ: string, name: string, requirements: seq<RouteRef>, level: TrustLevel)
    requires typ in {"plugin", "service"} && NameOk(name)
    requires forall d :: d in requirements ==> d.typ in {"plugin", "service"} && d.name != ""
    ensures var r := Sample(typ, name, requirements, level); Validates(r) && WithDefaults(r) == r
  {
    assert ROUTE_TYPES[0] == "plugin" && ROUTE_TYPES[1] == "service";
    assert RouteType("plugin") && RouteType("service");
    assert ["", "native", "l1", "grpc", "l2", "wasm", "l3"][0] == "";
    assert EngineOk("");
    assert DomainOk(DEFAULT_DOMAIN);
  }

  ghost predicate AllL1(b: Buckets) {
    forall x :: Has(b, x) ==> Lookup(b, x).trustLevel == TRUST_L1
  }

  lemma NothingThere()
    ensures Consistent(EmptyDb()) && AllL1(EmptyDb().routes) && forall x :: !Has(EmptyDb().routes, x)
  {}

  /** Another L1 route among L1 routes is accepted, whatever it requires. */
  lemma AnotherRegistered(db: Db, r: Route) returns (after: Db)
    requires Consistent(db) && AllL1(db.routes) && !Has(db.routes, r.Ref())
    requires Validates(r) && WithDefaults(r) == r && r.trustLevel == TRUST_L1
    ensures Register(db, r).Success? && after == Register(db, r).value == Apply(db, OpRegister(r))
    ensures Consistent(after) && AllL1(after.routes)
    ensures forall x :: Has(after.routes, x) <==> Has(db.routes, x) || x == r.Ref()
    ensures forall x :: Has(after.routes, x) ==> Lookup(after.routes, x) == if x == r.Ref() then r else Lookup(db.routes, x)
  {
    hide Register, Consistent, WithDefaults, Validates, RouteRef.String, WellBucketed, RouteKey, Has, Lookup, Keyed;
    ConsistentBuckets(db);
    RegisterExact(db, r, r.Ref());
    RegisterKeepsIndexes(db, r);
    after := Register(db, r).value;
    forall x
      ensures Has(after.routes, x) <==> Has(db.routes, x) || x == r.Ref()
      ensures Has(after.routes, x) ==> Lookup(after.routes, x) == if x == r.Ref() then r else Lookup(db.routes, x)
    { RegisterExact(db, r, x); }
  }

  lemma RunTwo(a: Op, b: Op)
    ensures RunOps(EmptyDb(), [a, b]) == Apply(Apply(EmptyDb(), a), b)
  {
    hide Apply;
    var one, two := [a], [a, b];
    assert two[..1] == one && one[..0] == [];
    assert RunOps(EmptyDb(), one) == Apply(EmptyDb(), a);
  }

  lemma RunThree(a: Op, b: Op, c: Op)
    ensures RunOps(EmptyDb(), [a, b, c]) == Apply(Apply(Apply(EmptyDb(), a), b), c)
  {
    hide Apply;
    var two, three := [a, b], [a, b, c];
    assert three[..2] == two;
    RunTwo(a, b);
  }

  /** `a`, at L1, requires `b`, which is registered afterwards, at L3: both are accepted, and trusted code requires untrusted code. */
  lemma TwoRegistrationsBreakTrust()
    ensures var a, b := Sample("plugin", "a", [PluginRef("b")], TRUST_L1), Sample("plugin", "b", [], TRUST_L3);
            && Register(EmptyDb(), a).Success? && Register(Register(EmptyDb(), a).value, b).Success?
            && !TrustKept(RunOps(EmptyDb(), [OpRegister(a), OpRegister(b)]).routes)
  {
    hide Register, Consistent, WithDefaults, Validates, RouteRef.String, WellBucketed, RouteKey, Has, Lookup, TrustKept, Keyed;
    var a, b := Sample("plugin", "a", [PluginRef("b")], TRUST_L1), Sample("plugin", "b", [], TRUST_L3);
    SampleValid("plugin", "a", [PluginRef("b")], TRUST_L1);
    SampleValid("plugin", "b", [], TRUST_L3);
    NothingThere();
    NothingStored();
    var db := AnotherRegistered(EmptyDb(), a);
    ConsistentBuckets(db);
    assert a.Ref() == PluginRef("a") && b.Ref() == PluginRef("b") && "a" != "b";
    RegisterKeepsTrustIff(EmptyDb(), a);
    RegisterExact(db, b, b.Ref());
    RegisterKeepsTrustIff(db, b);
    assert PluginRef("b") in Lookup(db.routes, a.Ref()).requirements;
    assert !MayTrust(db.routes, b.Ref(), TRUST_L3, {});
    RunTwo(OpRegister(a), OpRegister(b));
  }

  lemma BareSwapAccepted(db: Db, ref: RouteRef, route: Route)
    requires Validates(route) && route.requirements == [] && Has(db.routes, ref)
    ensures HotSwap(db, ref, route).Success?
  {
    hide Validates, RouteKey, RouteRef.String, AddForward, DropForward;
  }

  /** A plugin is swapped for a service: accepted, and the service lies in the plugin bucket. */
  lemma TypeChangeBreaksIndexes()
    ensures var a, s := Sample("plugin", "a", [], TRUST_L1), Sample("service", "a", [], TRUST_L1);
            && Register(EmptyDb(), a).Success? && HotSwap(Register(EmptyDb(), a).value, a.Ref(), s).Success?
            && !Consistent(RunOps(EmptyDb(), [OpRegister(a), OpHotSwap(a.Ref(), s)]))
  {
    hide Register, HotSwap, Consistent, WithDefaults, Validates, RouteRef.String, WellBucketed, RouteKey, Has, Lookup;
    var a, s := Sample("plugin", "a", [], TRUST_L1), Sample("service", "a", [], TRUST_L1);
    SampleValid("plugin", "a", [], TRUST_L1);
    SampleValid("service", "a", [], TRUST_L1);
    NothingThere();
    var db := AnotherRegistered(EmptyDb(), a);
    BareSwapAccepted(db, a.Ref(), s);
    assert "service" != "plugin" by { assert "service"[0] != "plugin"[0]; }
    HotSwapKeepsIndexesIff(db, a.Ref(), s);
    RunTwo(OpRegister(a), OpHotSwap(a.Ref(), s));
  }

  /** A plugin is swapped onto the key of another one that has requirements: accepted, and the latter's index entries stay. */
  lemma CollisionBreaksIndexes()
    ensures var a, b, c := Sample("plugin", "a", [], TRUST_L1), Sample("plugin", "b", [PluginRef("x")], TRUST_L1),
                           Sample("plugin", "b", [], TRUST_L1);
            var one := Register(EmptyDb(), a);
            && one.Success? && Register(one.value, b).Success?
            && HotSwap(Register(one.value, b).value, a.Ref(), c).Success?
            && !Consistent(RunOps(EmptyDb(), [OpRegister(a), OpRegister(b), OpHotSwap(a.Ref(), c)]))
  {
    hide Register, HotSwap, Consistent, WithDefaults, Validates, RouteRef.String, WellBucketed, RouteKey, Has, Lookup;
    var a, b, c := Sample("plugin", "a", [], TRUST_L1), Sample("plugin", "b", [PluginRef("x")], TRUST_L1),
                   Sample("plugin", "b", [], TRUST_L1);
    SampleValid("plugin", "a", [], TRUST_L1);
    SampleValid("plugin", "b", [PluginRef("x")], TRUST_L1);
    SampleValid("plugin", "b", [], TRUST_L1);
    NothingThere();
    assert "a"[0] != "b"[0];
    assert a.Ref() != b.Ref() && b.Ref() == c.Ref();
    var one := AnotherRegistered(EmptyDb(), a);
    var two := AnotherRegistered(one, b);
    BareSwapAccepted(two, a.Ref(), c);
    HotSwapKeepsIndexesIff(two, a.Ref(), c);
    assert NeedsAt(two.routes, c.Ref()) == [PluginRef("x")];
    RunThree(OpRegister(a), OpRegister(b), OpHotSwap(a.Ref(), c));
  }
}

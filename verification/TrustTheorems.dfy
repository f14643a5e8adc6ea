/** Trust between stored routes: exactly which writes keep every requirement respected, and what that gives along chains. */
module TrustTheorems {
  import opened Graph
  import opened Routes
  import opened Database
  import opened IndexTheorems
  import opened RegistryTheorems
  import opened ResolverTheorems
  import opened ImpactTheorems

  /** Every stored route may trust the stored routes it requires. */
  ghost predicate TrustKept(b: Buckets) {
    forall x, d :: Has(b, x) && d in Lookup(b, x).requirements && Has(b, d) ==>
      Lookup(b, d).trustLevel <= Lookup(b, x).trustLevel
  }

  /** The stored routes that require `ref`, other than those the write replaces, may trust the given level. */
  ghost predicate MayTrust(b: Buckets, ref: RouteRef, level: TrustLevel, replaced: set<RouteRef>) {
    forall x :: Has(b, x) && x !in replaced && ref in Lookup(b, x).requirements ==> level <= Lookup(b, x).trustLevel
  }

  /** The route may trust the stored routes it requires, other than those the write replaces. */
  ghost predicate TrustsOwn(b: Buckets, route: Route, replaced: set<RouteRef>) {
    forall d :: d in route.requirements && Has(b, d) && d !in replaced ==> Lookup(b, d).trustLevel <= route.trustLevel
  }

  // ----- single writes -----

  lemma StoredFormKeepsTrust(former: Route, r: Route)
    ensures WithDefaults(r).trustLevel == r.trustLevel && WithDefaults(r).requirements == r.requirements
    ensures Succeeding(former, r).trustLevel == r.trustLevel && Succeeding(former, r).requirements == r.requirements
  {}

  /** Storing `r` under its reference in place of what was stored under `gone`. */
  lemma ReplacedTrust(b: Buckets, after: Buckets, gone: RouteRef, ref: RouteRef, r: Route)
    requires TrustKept(b)
    requires forall x :: Has(after, x) <==> (Has(b, x) && x != gone) || x == ref
    requires forall x :: Has(after, x) ==> Lookup(after, x) == if x == ref then r else Lookup(b, x)
    ensures TrustKept(after) <==> MayTrust(b, ref, r.trustLevel, {gone, ref}) && TrustsOwn(b, r, {gone, ref})
  {
    hide Has, Lookup;
    if TrustKept(after) {
      forall x | Has(b, x) && x !in {gone, ref} && ref in Lookup(b, x).requirements
        ensures r.trustLevel <= Lookup(b, x).trustLevel
      {
        assert Has(after, x) && Lookup(after, x) == Lookup(b, x);
        assert Has(after, ref);
      }
      forall d | d in r.requirements && Has(b, d) && d !in {gone, ref} ensures Lookup(b, d).trustLevel <= r.trustLevel {
        assert Has(after, d) && Lookup(after, d) == Lookup(b, d) && Has(after, ref);
      }
    }
    if MayTrust(b, ref, r.trustLevel, {gone, ref}) && TrustsOwn(b, r, {gone, ref}) {
      forall x, d | Has(after, x) && d in Lookup(after, x).requirements && Has(after, d)
        ensures Lookup(after, d).trustLevel <= Lookup(after, x).trustLevel
      {
        if d != ref { assert Has(b, d) && Lookup(after, d) == Lookup(b, d); }
      }
    }
  }

  /**
   A committed registration keeps trust exactly when the routes that require it may trust it and it may trust those it
   requires, as they are stored at the commit.
   */
  lemma RegisterTxKeepsTrustIff(db: Db, route: Route)
    requires Keyed(db.routes) && Validates(route) && TrustKept(db.routes) && RegisterTx(db, route).Success?
    ensures TrustKept(RegisterTx(db, route).value.routes)
            <==> MayTrust(db.routes, route.Ref(), route.trustLevel, {}) && TrustsOwn(db.routes, route, {})
  {
    var b, after, ref := db.routes, RegisterTx(db, route).value.routes, route.Ref();
    hide Keyed, Validates, RouteRef.String, RouteKey, RegisterTx, WithDefaults, Has, Lookup;
    StoredFormKeepsTrust(route, route);
    forall x
      ensures Has(after, x) <==> Has(b, x) || x == ref
      ensures Has(after, x) ==> Lookup(after, x) == if x == ref then WithDefaults(route) else Lookup(b, x)
    { RegisterTxExact(db, route, x); }
    RegisterTxExact(db, route, ref);
    ReplacedTrust(b, after, ref, ref, WithDefaults(route));
  }

  /** The same for a committed hot swap, safe or not, and the place it fills. */
  lemma HotSwapTxKeepsTrustIff(db: Db, ref: RouteRef, route: Route)
    requires Keyed(db.routes) && Validates(route) && TrustKept(db.routes) && HotSwapTx(db, ref, route).Success?
    ensures var replaced := {ref, Landing(ref, route)};
            TrustKept(HotSwapTx(db, ref, route).value.routes)
            <==> MayTrust(db.routes, Landing(ref, route), route.trustLevel, replaced) && TrustsOwn(db.routes, route, replaced)
  {
    var b, after, there := db.routes, HotSwapTx(db, ref, route).value.routes, Landing(ref, route);
    assert Has(b, ref);
    var r := Succeeding(Lookup(b, ref), route);
    hide Keyed, Validates, RouteRef.String, RouteKey, HotSwapTx, Succeeding, Has, Lookup;
    StoredFormKeepsTrust(Lookup(b, ref), route);
    forall x
      ensures Has(after, x) <==> (Has(b, x) && x != ref) || x == there
      ensures Has(after, x) ==> Lookup(after, x) == if x == there then r else Lookup(b, x)
    { HotSwapExact(db, ref, route, x); }
    ReplacedTrust(b, after, ref, there, r);
  }

  lemma RemoveTxKeepsTrust(db: Db, ref: RouteRef, dependents: seq<RouteRef>)
    requires Keyed(db.routes) && TrustKept(db.routes) && RemoveTx(db, ref, dependents).Success?
    ensures TrustKept(RemoveTx(db, ref, dependents).value.routes)
  {
    var b, after := db.routes, RemoveTx(db, ref, dependents).value.routes;
    assert Has(b, ref);
    hide Keyed, Has, Lookup, RemoveTx, RouteRef.String;
    forall x
      ensures Has(after, x) <==> x != ref && Has(b, x)
      ensures Has(after, x) ==> Lookup(after, x).trustLevel == Lookup(b, x).trustLevel
                                && Lookup(after, x).requirements == Lookup(b, x).requirements
    { RemoveTxExact(db, ref, dependents, x); }
  }

  lemma RewriteKeepsTrust(db: Db, ref: RouteRef, r: Route)
    requires Keyed(db.routes) && TrustKept(db.routes) && Has(db.routes, ref)
    requires Validates(r) && r.domain == ref.domain && r.name == ref.name
    requires r.trustLevel == Lookup(db.routes, ref).trustLevel && r.requirements == Lookup(db.routes, ref).requirements
    ensures Keyed(Put(db.routes, ref.typ, RouteKey(ref.domain, ref.name), r))
    ensures TrustKept(Put(db.routes, ref.typ, RouteKey(ref.domain, ref.name), r))
  {
    var b, after := db.routes, Put(db.routes, ref.typ, RouteKey(ref.domain, ref.name), r);
    StoredExactly(b, ref.typ, r, ref);
    hide Keyed, Has, Lookup, Validates, RouteRef.String, RouteKey;
    forall x
      ensures Has(after, x) <==> Has(b, x)
      ensures Has(after, x) ==> Lookup(after, x).trustLevel == Lookup(b, x).trustLevel
                                && Lookup(after, x).requirements == Lookup(b, x).requirements
    { StoredExactly(b, ref.typ, r, x); }
  }

  // ----- admitted writes -----

  lemma AdmittedTrustsOwn(db: Db, route: Route, replaced: set<RouteRef>)
    requires Admit(db.routes, route).None?
    ensures Validates(route) && TrustsOwn(db.routes, route, replaced)
  {
    hide Validates, RouteRef.String;
    TrustFaultNone(db.routes, route.trustLevel, route.requirements);
  }

  /** An accepted registration keeps trust exactly when the routes that already require it may trust it. */
  lemma RegisterKeepsTrustIff(db: Db, route: Route)
    requires Keyed(db.routes) && TrustKept(db.routes) && Register(db, route).Success?
    ensures TrustKept(Register(db, route).value.routes) <==> MayTrust(db.routes, route.Ref(), route.trustLevel, {})
  {
    hide Keyed, TrustKept, MayTrust, RegisterTx, TrustsOwn, Validates;
    AdmittedTrustsOwn(db, route, {});
    RegisterTxKeepsTrustIff(db, route);
  }

  /** An accepted hot swap, safe or not, keeps trust exactly when the routes requiring the place it fills may trust the new level. */
  lemma HotSwapKeepsTrustIff(db: Db, ref: RouteRef, route: Route)
    requires Keyed(db.routes) && TrustKept(db.routes) && HotSwap(db, ref, route).Success?
    ensures TrustKept(HotSwap(db, ref, route).value.routes)
            <==> MayTrust(db.routes, Landing(ref, route), route.trustLevel, {ref, Landing(ref, route)})
  {
    hide Keyed, TrustKept, MayTrust, HotSwapTx, TrustsOwn, Validates;
    AdmittedTrustsOwn(db, route, {ref, Landing(ref, route)});
    HotSwapTxKeepsTrustIff(db, ref, route);
  }

  // ----- runs -----

  /** The write, if accepted, stores a route that its dependents may trust. */
  ghost predicate OpKeepsTrust(db: Db, op: Op) {
    Attempt(db, op).Success? ==>
      match op
      case OpRegister(route) => MayTrust(db.routes, route.Ref(), route.trustLevel, {})
      case OpHotSwap(ref, route) => MayTrust(db.routes, Landing(ref, route), route.trustLevel, {ref, Landing(ref, route)})
      case _ => true
  }

  lemma RewrittenKeepsTrust(db: Db, ref: RouteRef, r: Route)
    requires Keyed(db.routes) && Has(db.routes, ref)
    requires var q := Lookup(db.routes, ref); r == q.(payload := r.payload, enabled := r.enabled, state := r.state)
    ensures var after := Put(db.routes, ref.typ, RouteKey(ref.domain, ref.name), r);
            Keyed(after) && (TrustKept(db.routes) ==> TrustKept(after))
  {
    StoredUnderItsKey(db.routes, ref);
    SameIdentityValidates(Lookup(db.routes, ref), r);
    StoredExactly(db.routes, ref.typ, r, ref);
    hide Keyed, TrustKept, Validates, RouteRef.String, Has, Lookup, RouteKey;
    if TrustKept(db.routes) { RewriteKeepsTrust(db, ref, r); }
  }

  lemma ApplyKeepsTrustIff(db: Db, op: Op)
    requires Keyed(db.routes)
    ensures Keyed(Apply(db, op).routes)
    ensures TrustKept(db.routes) ==> (TrustKept(Apply(db, op).routes) <==> OpKeepsTrust(db, op))
  {
    hide Keyed, RegisterTx, HotSwapTx, RemoveTx, Has, Lookup, RouteKey, RouteRef.String, Validates, TrustFault, TrustKept, MayTrust;
    if Attempt(db, op).Success? {
      match op
      case OpRegister(route) =>
        RegisterTxExact(db, route, route.Ref());
        if TrustKept(db.routes) { RegisterKeepsTrustIff(db, route); }
      case OpHotSwap(ref, route) =>
        HotSwapExact(db, ref, route, ref);
        if TrustKept(db.routes) { HotSwapKeepsTrustIff(db, ref, route); }
      case OpRemove(ref) =>
        assert Has(db.routes, ref) by { RemoveFinds(db, ref); }
        RemoveTxExact(db, ref, Refs(DependentsOf(db, ref)), ref);
        if TrustKept(db.routes) { RemoveTxKeepsTrust(db, ref, Refs(DependentsOf(db, ref))); }
      case OpUpdate(ref, payload) => RewrittenKeepsTrust(db, ref, Lookup(db.routes, ref).(payload := payload));
      case OpSetEnabled(ref, enabled) =>
        var state := if enabled then STATE_ACTIVE else STATE_INACTIVE;
        RewrittenKeepsTrust(db, ref, Lookup(db.routes, ref).(enabled := enabled, state := state));
    }
  }

  lemma RemoveFinds(db: Db, ref: RouteRef)
    requires Remove(db, ref).Success?
    ensures Has(db.routes, ref)
  {}

  /**
   Over every run from the empty database, unsafe swaps included, every stored requirement is respected after every write
   exactly when each accepted write stores a route that its dependents may trust.
   */
  lemma RunsKeepTrustIff(ops: seq<Op>)
    ensures (forall k :: 0 <= k <= |ops| ==> TrustKept(RunOps(EmptyDb(), ops[..k]).routes))
            <==> (forall k :: 0 <= k < |ops| ==> OpKeepsTrust(RunOps(EmptyDb(), ops[..k]), ops[k]))
  {
    hide TrustKept, OpKeepsTrust, Keyed, RunOps, Apply;
    if forall k :: 0 <= k < |ops| ==> OpKeepsTrust(RunOps(EmptyDb(), ops[..k]), ops[k]) {
      forall k | 0 <= k <= |ops| ensures TrustKept(RunOps(EmptyDb(), ops[..k]).routes) { TrustSoFar(ops, k); }
    }
    if forall k :: 0 <= k <= |ops| ==> TrustKept(RunOps(EmptyDb(), ops[..k]).routes) {
      forall k | 0 <= k < |ops| ensures OpKeepsTrust(RunOps(EmptyDb(), ops[..k]), ops[k]) {
        RunOneMore(ops, k);
        KeyedSoFar(ops, k);
        assert TrustKept(RunOps(EmptyDb(), ops[..k]).routes) && TrustKept(RunOps(EmptyDb(), ops[..k + 1]).routes);
        ApplyKeepsTrustIff(RunOps(EmptyDb(), ops[..k]), ops[k]);
      }
    }
  }

  lemma RunOneMore(ops: seq<Op>, k: nat)
    requires k < |ops|
    ensures RunOps(EmptyDb(), ops[..k + 1]) == Apply(RunOps(EmptyDb(), ops[..k]), ops[k])
  {
    hide Apply;
    assert ops[..k + 1][..k] == ops[..k];
  }

  lemma {:induction false} KeyedSoFar(ops: seq<Op>, k: nat)
    requires k <= |ops|
    ensures Keyed(RunOps(EmptyDb(), ops[..k]).routes)
  {
    hide Keyed, Apply, TrustKept, OpKeepsTrust;
    if k == 0 {
      NothingStored();
    } else {
      KeyedSoFar(ops, k - 1);
      RunOneMore(ops, k - 1);
      ApplyKeepsTrustIff(RunOps(EmptyDb(), ops[..k - 1]), ops[k - 1]);
    }
  }

  lemma {:induction false} TrustSoFar(ops: seq<Op>, k: nat)
    requires k <= |ops|
    requires forall i :: 0 <= i < |ops| ==> OpKeepsTrust(RunOps(EmptyDb(), ops[..i]), ops[i])
    ensures TrustKept(RunOps(EmptyDb(), ops[..k]).routes)
  {
    hide TrustKept, OpKeepsTrust, Keyed, Apply;
    if k == 0 {
      NothingStored();
    } else {
      TrustSoFar(ops, k - 1);
      KeyedSoFar(ops, k - 1);
      RunOneMore(ops, k - 1);
      ApplyKeepsTrustIff(RunOps(EmptyDb(), ops[..k - 1]), ops[k - 1]);
    }
  }

  lemma NothingStored()
    ensures Keyed(EmptyDb().routes) && TrustKept(EmptyDb().routes)
  {}

  // ----- chains -----

  lemma EdgeIsRequirement(db: Db, a: Route, k: string, c: Route)
    requires Consistent(db) && Stored(db.routes, a) && Stored(db.routes, c) && c.Key() == k
    requires a.Key() in StoredGraph(db) && k in StoredGraph(db)[a.Key()]
    ensures c.Ref() in a.requirements
  {
    hide Consistent, RouteRef.String, Stored, Database.List, Validates, DistinctRefs, WellBucketed;
    var l := Database.List(db.routes, NO_FILTER);
    ConsistentBuckets(db);
    ListExact(db.routes, NO_FILTER);
    var r, d :| r in l && r.Key() == a.Key() && d in r.requirements && d.String() == k;
    UniqueByKey(l, r, a);
    StoredAreValid(db, a);
    StoredAreValid(db, c);
    assert RouteType(d.typ);
    RefStringIdentifies(d, c);
  }

  lemma StoredAreValid(db: Db, r: Route)
    requires WellBucketed(db.routes) && Stored(db.routes, r)
    ensures Validates(r) && forall d :: d in r.requirements ==> RouteType(d.typ)
  {
    hide RouteRef.String;
    StoredUnderItsRef(db.routes, r.Ref());
  }

  lemma NodeIsStored(db: Db, k: string) returns (c: Route)
    requires Consistent(db) && k in StoredGraph(db)
    ensures Stored(db.routes, c) && c.Key() == k
  {
    hide Consistent, RouteRef.String, Stored, Database.List, DistinctRefs, WellBucketed, Route.Key;
    ConsistentBuckets(db);
    ListExact(db.routes, NO_FILTER);
    c :| c in Database.List(db.routes, NO_FILTER) && c.Key() == k;
  }

  lemma OneStepTrust(db: Db, a: Route, c: Route)
    requires TrustKept(db.routes) && Stored(db.routes, a) && Stored(db.routes, c) && c.Ref() in a.requirements
    ensures c.trustLevel <= a.trustLevel
  {
    hide RouteRef.String;
    assert Has(db.routes, a.Ref());
  }

  lemma {:induction false} TrustAlongStored(db: Db, p: seq<string>, a: Route, b: Route)
    requires Consistent(db) && TrustKept(db.routes) && Stored(db.routes, a) && Stored(db.routes, b)
    requires IsPath(StoredGraph(db), p) && |p| >= 2 && p[0] == a.Key() && p[|p| - 1] == b.Key()
    ensures b.trustLevel <= a.trustLevel
    decreases |p|
  {
    hide Consistent, TrustKept, Stored, Route.Key, RouteRef.String, StoredGraph;
    assert p[0] in StoredGraph(db) && p[0 + 1] in StoredGraph(db)[p[0]];
    if |p| == 2 {
      EdgeIsRequirement(db, a, p[1], b);
      OneStepTrust(db, a, b);
    } else {
      assert p[1] in StoredGraph(db);
      var c := NodeIsStored(db, p[1]);
      EdgeIsRequirement(db, a, p[1], c);
      OneStepTrust(db, a, c);
      TrustAlongStored(db, p[1..], c, b);
    }
  }

  /** While every stored requirement is respected, whatever a route reaches through stored routes is at least as trusted. */
  lemma StoredChainsRespectTrust(db: Db, a: Route, b: Route)
    requires Consistent(db) && TrustKept(db.routes) && Stored(db.routes, a) && Stored(db.routes, b)
    requires Reaches(StoredGraph(db), a.Key(), b.Key())
    ensures b.trustLevel <= a.trustLevel
  {
    hide Consistent, TrustKept, Stored, Route.Key, RouteRef.String, StoredGraph;
    var p :| Connects(StoredGraph(db), p, a.Key(), b.Key());
    TrustAlongStored(db, p, a, b);
  }
}

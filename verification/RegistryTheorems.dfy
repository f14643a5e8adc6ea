/** Whole runs of the registry: index consistency, listing, and resolution after a removal. */
module RegistryTheorems {
  import opened Wrappers
  import opened Lexical
  import opened Routes
  import opened Database
  import opened IndexTheorems
  import opened Resolver
  import opened ResolverTheorems

  // ----- single operations -----

  lemma DefaultsKeepIdentity(r: Route)
    ensures WithDefaults(r).Ref() == r.Ref() && WithDefaults(r).requirements == r.requirements
    ensures Validates(r) ==> Validates(WithDefaults(r))
  {}

  lemma SucceedingKeepsIdentity(former: Route, r: Route)
    ensures Succeeding(former, r).Ref() == r.Ref() && Succeeding(former, r).requirements == r.requirements
    ensures Validates(former) && Validates(r) ==> Validates(Succeeding(former, r))
  {}

  /** What the registry has checked of a route before the transaction, whatever has been stored since. */
  lemma RegisterTxKeepsIndexes(db: Db, route: Route)
    requires Consistent(db) && Validates(route) && RegisterTx(db, route).Success?
    ensures Consistent(RegisterTx(db, route).value)
  {
    hide Validates, RouteKey, RouteRef.String, Consistent, AddIndexes, WithDefaults;
    var r := WithDefaults(route);
    DefaultsKeepIdentity(route);
    AddKeepsIndexes(db, r);
  }

  lemma RegisterKeepsIndexes(db: Db, route: Route)
    requires Consistent(db) && Register(db, route).Success?
    ensures Consistent(Register(db, route).value)
  {
    hide Validates, Consistent, RegisterTx, TrustFault;
    RegisterTxKeepsIndexes(db, route);
  }

  lemma RemoveTxKeepsIndexes(db: Db, ref: RouteRef, dependents: seq<RouteRef>)
    requires Consistent(db) && RemoveTx(db, ref, dependents).Success?
    ensures Consistent(RemoveTx(db, ref, dependents).value)
  {
    hide RouteKey, RouteRef.String, WellBucketed, ForwardExact, ReverseExact, MarkAllOrphaned, SameNeeds;
    var b := MarkAllOrphaned(db.routes, dependents);
    OrphansInPlace(db.routes, dependents);
    SameNeedsKeepsIndexes(db, b);
    RemoveKeepsIndexes(db.(routes := b), ref);
  }

  lemma RemoveKeepsConsistency(db: Db, ref: RouteRef)
    requires Consistent(db) && Remove(db, ref).Success?
    ensures Consistent(Remove(db, ref).value)
  {
    hide Consistent, RemoveTx;
    RemoveTxKeepsIndexes(db, ref, Refs(DependentsOf(db, ref)));
  }

  /** Rewriting a stored route under its own reference and with its own requirements, as Update and setEnabled do. */
  lemma RewriteKeepsIndexes(db: Db, ref: RouteRef, r: Route)
    requires Consistent(db) && Has(db.routes, ref)
    requires r.Ref() == ref && Validates(r) && r.requirements == Lookup(db.routes, ref).requirements
    ensures Consistent(db.(routes := Put(db.routes, ref.typ, RouteKey(ref.domain, ref.name), r)))
  {
    hide RouteKey, RouteRef.String, WellBucketed, ForwardExact, ReverseExact, SameNeeds, Validates, Put;
    RewriteInPlace(db.routes, ref, r);
    SameNeedsKeepsIndexes(db, Put(db.routes, ref.typ, RouteKey(ref.domain, ref.name), r));
  }

  lemma {:induction false} TrustFaultNone(b: Buckets, level: TrustLevel, deps: seq<RouteRef>)
    ensures TrustFault(b, level, deps).None? <==> forall d :: d in deps ==> TrustOf(b, d) <= level
  {
    hide TrustOf;
    if deps != [] {
      TrustFaultNone(b, level, deps[1..]);
      assert deps == [deps[0]] + deps[1..];
    }
  }

  /** The transaction stores the route if its key is free, and touches no other. */
  lemma RegisterTxExact(db: Db, route: Route, x: RouteRef)
    requires Keyed(db.routes) && Validates(route)
    ensures RegisterTx(db, route).Success? <==> !Has(db.routes, route.Ref())
    ensures RegisterTx(db, route).Success? ==>
              var after := RegisterTx(db, route).value.routes;
              && Keyed(after) && (Has(after, x) <==> Has(db.routes, x) || x == route.Ref())
              && (Has(after, x) ==> Lookup(after, x) == if x == route.Ref() then WithDefaults(route) else Lookup(db.routes, x))
  {
    hide RouteRef.String, AddForward, AddReverse, WithDefaults, RouteKey, Validates, Keyed;
    DefaultsKeepIdentity(route);
    TypeKnown(db.routes, route);
    StoredExactly(db.routes, route.typ, WithDefaults(route), x);
  }

  lemma TypeKnown(b: Buckets, r: Route)
    requires Keyed(b) && Validates(r)
    ensures r.typ in b
  {}

  /**
   Register accepts exactly the valid routes whose key is free and whose requirements are stored at no higher level than
   their own, if stored at all; it then stores that route and touches no other.
   */
  lemma RegisterExact(db: Db, route: Route, x: RouteRef)
    requires Keyed(db.routes)
    ensures Register(db, route).Success? <==>
            && Validates(route) && !Has(db.routes, route.Ref())
            && forall d :: d in route.requirements && Has(db.routes, d) ==> Lookup(db.routes, d).trustLevel <= route.trustLevel
    ensures Register(db, route).Success? ==>
              var after := Register(db, route).value.routes;
              && (Has(after, x) <==> Has(db.routes, x) || x == route.Ref())
              && (Has(after, x) ==> Lookup(after, x) == if x == route.Ref() then WithDefaults(route) else Lookup(db.routes, x))
  {
    hide RouteRef.String, WithDefaults, Validates, Keyed, RegisterTx, Has, Lookup;
    TrustFaultNone(db.routes, route.trustLevel, route.requirements);
    forall d ensures TrustOf(db.routes, d) == if Has(db.routes, d) then Lookup(db.routes, d).trustLevel else TRUST_L1 {}
    if Validates(route) { RegisterTxExact(db, route, x); }
  }

  lemma StoredExactly(b: Buckets, typ: string, r: Route, x: RouteRef)
    requires Keyed(b) && Validates(r) && typ in b
    ensures var c, ref := Put(b, typ, RouteKey(r.domain, r.name), r), RouteRef(typ, r.domain, r.name);
            && Keyed(c) && (Has(c, x) <==> Has(b, x) || x == ref)
            && (Has(c, x) ==> Lookup(c, x) == if x == ref then r else Lookup(b, x))
  {
    hide Validates, RouteKey;
    if RouteKey(x.domain, x.name) == RouteKey(r.domain, r.name) { RouteKeyInjective(x.domain, x.name, r); }
  }

  lemma DeletedExactly(b: Buckets, ref: RouteRef, x: RouteRef)
    requires Keyed(b) && Has(b, ref)
    ensures var c := Deleted(b, ref);
            && Keyed(c) && (Has(c, x) <==> Has(b, x) && x != ref) && (Has(c, x) ==> Lookup(c, x) == Lookup(b, x))
  {
    hide RouteRef.String, Validates, RouteKey;
    StoredUnderItsKey(b, ref);
    if Has(b, x) { StoredUnderItsKey(b, x); }
  }

  // ----- hot swap -----

  /** Where a swap puts the incoming route: in the bucket of the former one, under its own key. */
  function Landing(ref: RouteRef, route: Route): RouteRef {
    RouteRef(ref.typ, route.domain, route.name)
  }

  /** A committed swap clears the old key, stores the incoming route, enabled and trusted as the former one was, and touches no other. */
  lemma HotSwapExact(db: Db, ref: RouteRef, route: Route, x: RouteRef)
    requires Keyed(db.routes) && Validates(route) && HotSwapTx(db, ref, route).Success?
    ensures var after := HotSwapTx(db, ref, route).value.routes;
            && Keyed(after) && (Has(after, x) <==> (Has(db.routes, x) && x != ref) || x == Landing(ref, route))
            && (Has(after, x) ==> Lookup(after, x) == if x == Landing(ref, route) then Succeeding(Lookup(db.routes, ref), route)
                                                       else Lookup(db.routes, x))
  {
    hide RouteRef.String, AddForward, AddReverse, DropForward, Succeeding, RouteKey, Validates, Keyed;
    StoredUnderItsKey(db.routes, ref);
    var former := Lookup(db.routes, ref);
    var r := Succeeding(former, route);
    SucceedingKeepsIdentity(former, route);
    assert HotSwapTx(db, ref, route).value.routes
           == Put(if RouteKey(r.domain, r.name) != RouteKey(ref.domain, ref.name)
                  then Delete(db.routes, ref.typ, RouteKey(ref.domain, ref.name)) else db.routes,
                  ref.typ, RouteKey(r.domain, r.name), r);
    if RouteKey(r.domain, r.name) != RouteKey(ref.domain, ref.name) {
      DeletedExactly(db.routes, ref, x);
      StoredExactly(Deleted(db.routes, ref), ref.typ, r, x);
    } else {
      RouteKeyInjective(ref.domain, ref.name, r);
      StoredExactly(db.routes, ref.typ, r, x);
    }
  }

  /** The new route has the bucket's type, and lands on the old key, a free key, or a route that requires nothing. */
  ghost predicate SwapSafe(db: Db, ref: RouteRef, route: Route) {
    route.typ == ref.typ && (route.Ref() == ref || NeedsAt(db.routes, route.Ref()) == [])
  }

  lemma SafeSwapKeepsIndexes(db: Db, ref: RouteRef, route: Route)
    requires Consistent(db) && Validates(route) && HotSwapTx(db, ref, route).Success? && SwapSafe(db, ref, route)
    ensures Consistent(HotSwapTx(db, ref, route).value)
  {
    hide Validates, RouteRef.String, Consistent, AddIndexes, RemoveIndexes, Succeeding, NeedsAt, WellBucketed;
    var r := Succeeding(Lookup(db.routes, ref), route);
    assert WellBucketed(db.routes) by { ConsistentBuckets(db); }
    StoredUnderItsRef(db.routes, ref);
    SucceedingKeepsIdentity(Lookup(db.routes, ref), route);
    RemoveKeepsIndexes(db, ref);
    UnstoreNeeds(db.routes, ref, r.Ref());
    var cleared := RemoveIndexes(db, ref).(routes := Deleted(db.routes, ref));
    AddKeepsIndexes(cleared, r);
    var oldKey, newKey := RouteKey(ref.domain, ref.name), RouteKey(r.domain, r.name);
    var b := if newKey != oldKey then Delete(db.routes, ref.typ, oldKey) else db.routes;
    PutAfterDelete(db.routes, ref.typ, oldKey, newKey, r);
    assert Put(b, ref.typ, newKey, r) == Inserted(cleared.routes, r);
  }

  lemma ConsistentBuckets(db: Db)
    requires Consistent(db)
    ensures WellBucketed(db.routes) && Keyed(db.routes)
  {
    WellBucketedKeyed(db.routes);
  }

  lemma PutAfterDelete(b: Buckets, typ: string, oldKey: string, newKey: string, r: Route)
    requires typ in b
    ensures oldKey == newKey ==> Put(b, typ, newKey, r) == Put(Delete(b, typ, oldKey), typ, newKey, r)
  {
    assert oldKey == newKey ==> (b[typ] - {oldKey})[newKey := r] == b[typ][newKey := r];
  }

  lemma WrongTypeBreaksBuckets(db: Db, ref: RouteRef, route: Route)
    requires Validates(route) && HotSwapTx(db, ref, route).Success? && route.typ != ref.typ
    ensures !WellBucketed(HotSwapTx(db, ref, route).value.routes)
  {
    hide Validates, RouteRef.String, AddForward, DropForward;
    var r := Succeeding(Lookup(db.routes, ref), route);
    var b := HotSwapTx(db, ref, route).value.routes;
    assert b[ref.typ][RouteKey(r.domain, r.name)] == r;
  }

  lemma CollisionBreaksForward(db: Db, ref: RouteRef, route: Route)
    requires Consistent(db) && Validates(route) && HotSwapTx(db, ref, route).Success?
    requires route.typ == ref.typ && route.Ref() != ref && NeedsAt(db.routes, route.Ref()) != []
    ensures !ForwardExact(HotSwapTx(db, ref, route).value.forward, HotSwapTx(db, ref, route).value.routes)
  {
    hide Validates, RouteRef.String, Succeeding, WellBucketed;
    var after := HotSwapTx(db, ref, route).value;
    var q := route.Ref();
    var k := NeedsAt(db.routes, q)[0].String();
    var r := Succeeding(Lookup(db.routes, ref), route);
    SucceedingKeepsIdentity(Lookup(db.routes, ref), route);
    assert Strings(NeedsAt(db.routes, q))[0] == k;
    assert Uses(db.routes, q, k) > 0;
    if q.String() == ref.String() { StoredStringsDiffer(db.routes, q, ref); }
    var deps := At(db.reverse, ref.String());
    DropForwardCounts(db.forward, deps, ref.String(), k, q);
    AddForwardCounts(DropForward(db.forward, deps, ref.String()), r.requirements, q, k, q);
    assert multiset(At(db.forward, k))[q] == Uses(db.routes, q, k);
    assert NeedsAt(after.routes, q) == r.requirements;
    assert multiset(At(after.forward, k))[q] != Uses(after.routes, q, k);
  }

  /** A committed hot swap keeps the database consistent exactly when it is safe. */
  lemma HotSwapTxKeepsIndexesIff(db: Db, ref: RouteRef, route: Route)
    requires Consistent(db) && Validates(route) && HotSwapTx(db, ref, route).Success?
    ensures Consistent(HotSwapTx(db, ref, route).value) <==> SwapSafe(db, ref, route)
  {
    hide Validates, RouteRef.String, WellBucketed, ForwardExact, ReverseExact, HotSwapTx, NeedsAt;
    if SwapSafe(db, ref, route) {
      SafeSwapKeepsIndexes(db, ref, route);
    } else if route.typ != ref.typ {
      WrongTypeBreaksBuckets(db, ref, route);
    } else {
      CollisionBreaksForward(db, ref, route);
    }
  }

  lemma HotSwapKeepsIndexesIff(db: Db, ref: RouteRef, route: Route)
    requires Consistent(db) && HotSwap(db, ref, route).Success?
    ensures Consistent(HotSwap(db, ref, route).value) <==> SwapSafe(db, ref, route)
  {
    hide Validates, Consistent, HotSwapTx, SwapSafe, TrustFault;
    HotSwapTxKeepsIndexesIff(db, ref, route);
  }

  // ----- runs -----

  datatype Op =
    | OpRegister(route: Route)
    | OpRemove(ref: RouteRef)
    | OpUpdate(ref: RouteRef, payload: string)
    | OpSetEnabled(ref: RouteRef, enabled: bool)
    | OpHotSwap(ref: RouteRef, route: Route)

  function Attempt(db: Db, op: Op): Result<Db, StoreError> {
    match op
    case OpRegister(route) => Register(db, route)
    case OpRemove(ref) => Remove(db, ref)
    case OpUpdate(ref, payload) => Update(db, ref, payload)
    case OpSetEnabled(ref, enabled) => SetEnabled(db, ref, enabled, if enabled then STATE_ACTIVE else STATE_INACTIVE)
    case OpHotSwap(ref, route) => HotSwap(db, ref, route)
  }

  /** A failing operation leaves the database as it was. */
  function Apply(db: Db, op: Op): Db {
    match Attempt(db, op)
    case Success(after) => after
    case Failure(_) => db
  }

  function RunOps(db: Db, ops: seq<Op>): Db {
    if ops == [] then db else Apply(RunOps(db, ops[..|ops| - 1]), ops[|ops| - 1])
  }

  /** Every hot swap in the run is safe in the state it meets. */
  ghost predicate SwapsSafely(db: Db, ops: seq<Op>) {
    forall i :: 0 <= i < |ops| && ops[i].OpHotSwap? ==> SwapSafe(RunOps(db, ops[..i]), ops[i].ref, ops[i].route)
  }

  lemma EmptyConsistent()
    ensures Consistent(EmptyDb())
  {}

  /** Payload, enablement and state play no part in validation. */
  lemma SameIdentityValidates(r: Route, q: Route)
    requires Validates(r) && q == r.(payload := q.payload, enabled := q.enabled, state := q.state)
    ensures Validates(q) && q.Ref() == r.Ref() && q.requirements == r.requirements
  {}

  lemma ApplyKeepsIndexes(db: Db, op: Op)
    requires Consistent(db) && (op.OpHotSwap? ==> SwapSafe(db, op.ref, op.route))
    ensures Consistent(Apply(db, op))
  {
    hide Consistent, SwapSafe, Register, Remove, HotSwap, Has, Lookup, RouteKey, RouteRef.String, Validates, WellBucketed;
    ConsistentBuckets(db);
    if Attempt(db, op).Success? {
      match op
      case OpRegister(route) => RegisterKeepsIndexes(db, route);
      case OpRemove(ref) => RemoveKeepsConsistency(db, ref);
      case OpUpdate(ref, payload) =>
        var r := Lookup(db.routes, ref);
        StoredUnderItsRef(db.routes, ref);
        SameIdentityValidates(r, r.(payload := payload));
        RewriteKeepsIndexes(db, ref, r.(payload := payload));
      case OpSetEnabled(ref, enabled) =>
        var r, state := Lookup(db.routes, ref), if enabled then STATE_ACTIVE else STATE_INACTIVE;
        StoredUnderItsRef(db.routes, ref);
        SameIdentityValidates(r, r.(enabled := enabled, state := state));
        RewriteKeepsIndexes(db, ref, r.(enabled := enabled, state := state));
      case OpHotSwap(ref, route) => HotSwapKeepsIndexesIff(db, ref, route);
    }
  }

  /** From the empty database, every run whose hot swaps are safe leaves indexes that agree with the stored routes. */
  lemma {:induction false} RunsKeepIndexes(ops: seq<Op>)
    requires SwapsSafely(EmptyDb(), ops)
    ensures Consistent(RunOps(EmptyDb(), ops))
  {
    hide Consistent, SwapSafe, Apply;
    if ops == [] {
      EmptyConsistent();
    } else {
      var n := |ops| - 1;
      forall i | 0 <= i < n ensures ops[..n][..i] == ops[..i] {}
      RunsKeepIndexes(ops[..n]);
      assert ops[..n] == ops[..n][..n];
      ApplyKeepsIndexes(RunOps(EmptyDb(), ops[..n]), ops[n]);
    }
  }

  // ----- reading the indexes -----

  ghost predicate Stored(b: Buckets, r: Route) {
    Has(b, r.Ref()) && Lookup(b, r.Ref()) == r
  }

  lemma {:induction false} PresentCounts(b: Buckets, refs: seq<RouteRef>, r: Route)
    requires WellBucketed(b)
    ensures multiset(Present(b, refs))[r] == if Stored(b, r) then multiset(refs)[r.Ref()] else 0
  {
    hide RouteRef.String, WellBucketed, RouteKey;
    if refs != [] {
      var n := |refs| - 1;
      PresentCounts(b, refs[..n], r);
      assert refs == refs[..n] + [refs[n]];
      if Has(b, refs[n]) { StoredUnderItsRef(b, refs[n]); }
    }
  }

  /** The dependents read from the index are the stored routes requiring the key, each as often as it requires it. */
  lemma DependentsAreAScan(db: Db, k: string, r: Route)
    requires Consistent(db)
    ensures multiset(DependentsAt(db, k))[r] == if Stored(db.routes, r) then multiset(r.DepKeys())[k] else 0
  {
    hide RouteRef.String, WellBucketed;
    PresentCounts(db.routes, At(db.forward, k), r);
    assert multiset(At(db.forward, k))[r.Ref()] == Uses(db.routes, r.Ref(), k);
  }

  /** References are followed one by one, in order; one that is not stored yields nothing. */
  lemma {:induction false} PresentConcat(b: Buckets, one: seq<RouteRef>, two: seq<RouteRef>, ref: RouteRef)
    ensures Present(b, one + two) == Present(b, one) + Present(b, two)
    ensures Present(b, [ref]) == if Has(b, ref) then [Lookup(b, ref)] else []
  {
    hide Has, Lookup;
    assert [ref][..0] == [];
    if two == [] {
      assert one + two == one;
    } else {
      var n := |two| - 1;
      assert (one + two)[..|one + two| - 1] == one + two[..n];
      PresentConcat(b, one, two[..n], ref);
    }
  }

  /** The dependencies read from the index are the stored routes among a stored route's requirements, in order. */
  lemma DependenciesAreTheRequirements(db: Db, ref: RouteRef)
    requires Consistent(db) && Has(db.routes, ref)
    ensures DependenciesOf(db, ref) == Present(db.routes, Lookup(db.routes, ref).requirements)
  {
    ReverseOfStored(db, ref);
  }

  // ----- listing -----

  lemma {:induction false} MatchingMembers(bucket: map<string, Route>, keys: seq<string>, opts: ListOptions)
    requires forall k :: k in keys ==> k in bucket
    ensures forall r :: r in Matching(bucket, keys, opts) <==> exists k :: k in keys && bucket[k] == r && opts.Matches(r)
  {
    hide ListOptions.Matches;
    if keys != [] {
      var n := |keys| - 1;
      MatchingMembers(bucket, keys[..n], opts);
      assert keys == keys[..n] + [keys[n]];
      forall r ensures r in Matching(bucket, keys, opts) <==> exists k :: k in keys && bucket[k] == r && opts.Matches(r) {
        if r in Matching(bucket, keys, opts) {
          if r in Matching(bucket, keys[..n], opts) {
            var k :| k in keys[..n] && bucket[k] == r && opts.Matches(r);
            assert k in keys;
          } else {
            assert keys[n] in keys;
          }
        }
        if k :| k in keys && bucket[k] == r && opts.Matches(r) {
          assert k in keys[..n] || k == keys[n];
        }
      }
    }
  }

  ghost predicate DistinctRefsOnly(s: seq<Route>) {
    forall i, j :: 0 <= i < j < |s| ==> s[i].Ref() != s[j].Ref()
  }

  lemma {:induction false} MatchingDistinct(bucket: map<string, Route>, keys: seq<string>, opts: ListOptions)
    requires forall k :: k in keys ==> k in bucket && RouteKey(bucket[k].domain, bucket[k].name) == k
    requires Distinct(keys)
    ensures DistinctRefsOnly(Matching(bucket, keys, opts))
  {
    hide ListOptions.Matches;
    if keys != [] {
      var n := |keys| - 1;
      MatchingDistinct(bucket, keys[..n], opts);
      MatchingMembers(bucket, keys[..n], opts);
      var front, r := Matching(bucket, keys[..n], opts), bucket[keys[n]];
      forall q | q in front ensures q.Ref() != r.Ref() {
        var k :| k in keys[..n] && bucket[k] == q;
        assert keys[n] == RouteKey(r.domain, r.name);
      }
    }
  }

  lemma ListBucketExact(b: Buckets, typ: string, opts: ListOptions)
    requires WellBucketed(b)
    ensures forall r :: r in ListBucket(b, typ, opts) <==> Stored(b, r) && r.typ == typ && opts.Matches(r)
    ensures DistinctRefsOnly(ListBucket(b, typ, opts))
  {
    hide RouteRef.String, ListOptions.Matches, Validates;
    if typ in b {
      var keys := SortedOf(b[typ].Keys);
      SortedOfExact(b[typ].Keys);
      MatchingMembers(b[typ], keys, opts);
      MatchingDistinct(b[typ], keys, opts);
    }
  }

  lemma {:induction false} ListTypesExact(b: Buckets, types: seq<string>, opts: ListOptions)
    requires WellBucketed(b) && Distinct(types)
    ensures forall r :: r in ListTypes(b, types, opts) <==> Stored(b, r) && r.typ in types && opts.Matches(r)
    ensures DistinctRefsOnly(ListTypes(b, types, opts))
  {
    hide RouteRef.String, ListOptions.Matches, WellBucketed, Stored, ListBucket;
    if types != [] {
      var n := |types| - 1;
      ListTypesExact(b, types[..n], opts);
      ListBucketExact(b, types[n], opts);
      assert types == types[..n] + [types[n]];
    }
  }

  /** Listing returns every matching stored route once. */
  lemma ListExact(b: Buckets, opts: ListOptions)
    requires WellBucketed(b)
    ensures forall r :: r in List(b, opts) <==>
              && Stored(b, r) && (opts.typ.Some? ==> r.typ == opts.typ.value) && (opts.domain != "" ==> r.domain == opts.domain)
              && (opts.enabled.Some? ==> r.enabled == opts.enabled.value)
              && (opts.trustLevel.Some? ==> r.trustLevel == opts.trustLevel.value) && (opts.state.Some? ==> r.state == opts.state.value)
    ensures DistinctRefs(List(b, opts))
  {
    hide RouteRef.String, WellBucketed, ListBucket, ListTypes;
    if opts.typ.Some? {
      ListBucketExact(b, opts.typ.value, opts);
    } else {
      ListTypesExact(b, ROUTE_TYPES, opts);
      forall r | Stored(b, r) ensures r.typ in ROUTE_TYPES { StoredUnderItsRef(b, r.Ref()); }
    }
    var l := List(b, opts);
    forall i, j | 0 <= i < j < |l| ensures KeySeq(l)[i] != KeySeq(l)[j] {
      assert l[i] in l && l[j] in l;
      if l[i].Key() == l[j].Key() { StoredStringsDiffer(b, l[i].Ref(), l[j].Ref()); }
    }
  }

  // ----- resolving after a removal -----

  /** `ResolutionOrder`: the resolver over everything stored. */
  ghost function ResolutionOrder(db: Db): Result<seq<Route>, ResolveError> {
    Resolve(List(db.routes, NO_FILTER))
  }

  lemma NoDependentsIff(db: Db, ref: RouteRef)
    requires Consistent(db)
    ensures DependentsOf(db, ref) == [] <==> forall r :: Stored(db.routes, r) ==> ref.String() !in r.DepKeys()
  {
    hide RouteRef.String, Consistent, DependentsAt, Route.DepKeys, Stored;
    if DependentsOf(db, ref) != [] {
      var r := DependentsOf(db, ref)[0];
      assert r in DependentsOf(db, ref);
      DependentsAreAScan(db, ref.String(), r);
    } else {
      forall r | Stored(db.routes, r) ensures ref.String() !in r.DepKeys() {
        DependentsAreAScan(db, ref.String(), r);
      }
    }
  }

  lemma RemovedStored(db: Db, ref: RouteRef, r: Route)
    requires Consistent(db) && Has(db.routes, ref) && DependentsOf(db, ref) == []
    ensures Stored(Remove(db, ref).value.routes, r) <==> Stored(db.routes, r) && r != Lookup(db.routes, ref)
  {
    hide RouteRef.String, ForwardExact, ReverseExact;
    StoredUnderItsRef(db.routes, ref);
    UnstoreNeeds(db.routes, ref, r.Ref());
  }

  lemma MarkOneLookup(b: Buckets, ref: RouteRef, x: RouteRef)
    requires Keyed(b)
    ensures var c := MarkOrphaned(b, ref);
            && Keyed(c) && (Has(c, x) <==> Has(b, x))
            && (Has(c, x) ==> Lookup(c, x) == if x == ref then Lookup(b, x).(state := STATE_ORPHANED) else Lookup(b, x))
  {
    hide RouteRef.String, Validates, RouteKey, Keyed;
    if Has(b, ref) {
      StoredUnderItsKey(b, ref);
      var r := Lookup(b, ref).(state := STATE_ORPHANED);
      SameIdentityValidates(Lookup(b, ref), r);
      StoredExactly(b, ref.typ, r, x);
    }
  }

  lemma {:induction false} MarkAllLookup(b: Buckets, refs: seq<RouteRef>, x: RouteRef)
    requires Keyed(b)
    ensures var c := MarkAllOrphaned(b, refs);
            && Keyed(c) && (Has(c, x) <==> Has(b, x))
            && (Has(c, x) ==> Lookup(c, x) == if x in refs then Lookup(b, x).(state := STATE_ORPHANED) else Lookup(b, x))
  {
    hide RouteRef.String, RouteKey, Keyed, MarkOrphaned, Has, Lookup;
    if refs != [] {
      var n := |refs| - 1;
      assert refs == refs[..n] + [refs[n]];
      MarkAllLookup(b, refs[..n], x);
      MarkOneLookup(MarkAllOrphaned(b, refs[..n]), refs[n], x);
    }
  }

  /** A committed removal takes out that one route, marks the dependents it was given and leaves every other as it was. */
  lemma RemoveTxExact(db: Db, ref: RouteRef, dependents: seq<RouteRef>, x: RouteRef)
    requires Keyed(db.routes) && Has(db.routes, ref)
    ensures var after := RemoveTx(db, ref, dependents).value.routes;
            && Keyed(after) && (Has(after, x) <==> x != ref && Has(db.routes, x))
            && (Has(after, x) ==> var r := Lookup(db.routes, x);
                                  Lookup(after, x) == if x in dependents then r.(state := "orphaned") else r)
  {
    hide RouteRef.String, DropForward, MarkAllOrphaned, RouteKey, Keyed;
    MarkAllLookup(db.routes, dependents, x);
    MarkAllLookup(db.routes, dependents, ref);
    DeletedExactly(MarkAllOrphaned(db.routes, dependents), ref, x);
  }

  /** Removal takes out that one route, marks the routes that require it as orphaned and leaves every other as it was. */
  lemma RemoveExact(db: Db, ref: RouteRef, x: RouteRef)
    requires Consistent(db) && Has(db.routes, ref)
    ensures var after := Remove(db, ref).value.routes;
            && (Has(after, x) <==> x != ref && Has(db.routes, x))
            && (Has(after, x) ==> var r := Lookup(db.routes, x);
                                  Lookup(after, x) == if ref.String() in r.DepKeys() then r.(state := "orphaned") else r)
  {
    hide RouteRef.String, Consistent, WellBucketed, RemoveTx, Route.DepKeys, Validates, RouteKey, DependentsOf;
    ConsistentBuckets(db);
    WellBucketedKeyed(db.routes);
    RemoveTxExact(db, ref, Refs(DependentsOf(db, ref)), x);
    if Has(db.routes, x) {
      StoredUnderItsRef(db.routes, x);
      DirectIffRequires(db, ref, Lookup(db.routes, x));
    }
  }

  lemma DirectIffRequires(db: Db, ref: RouteRef, r: Route)
    requires Consistent(db) && Stored(db.routes, r)
    ensures r.Ref() in Refs(DependentsOf(db, ref)) <==> ref.String() in r.DepKeys()
  {
    hide RouteRef.String, Consistent, DependentsAt, Route.DepKeys;
    var refs := Refs(DependentsOf(db, ref));
    DependentsAreAScan(db, ref.String(), r);
    if r.Ref() in refs {
      var i :| 0 <= i < |refs| && refs[i] == r.Ref();
      var p := DependentsOf(db, ref)[i];
      assert p in DependentsOf(db, ref);
      DependentsAreAScan(db, ref.String(), p);
    }
    if ref.String() in r.DepKeys() {
      ListedRef(DependentsOf(db, ref), r);
    }
  }

  lemma ListedRef(routes: seq<Route>, r: Route)
    requires r in routes
    ensures r.Ref() in Refs(routes)
  {
    var i :| 0 <= i < |routes| && routes[i] == r;
    assert Refs(routes)[i] == r.Ref();
  }

  lemma SameMembersSameBag(a: seq<Route>, b: seq<Route>)
    requires DistinctRefs(a) && DistinctRefs(b) && forall r :: r in a <==> r in b
    ensures multiset(a) == multiset(b)
  {
    hide DistinctRefs;
    KeysDistinctSoRoutesDistinct(a);
    KeysDistinctSoRoutesDistinct(b);
    assert Elems(a) == Elems(b);
    SameElements(a, b);
  }

  lemma NoDependentEither(db: Db, ref: RouteRef)
    requires Consistent(db)
    ensures HasDependent(List(db.routes, NO_FILTER), ref.String())
            <==> exists r :: Stored(db.routes, r) && ref.String() in r.DepKeys()
  {
    hide RouteRef.String, ForwardExact, ReverseExact, WellBucketed, List, Stored;
    ListExact(db.routes, NO_FILTER);
    var l, k := List(db.routes, NO_FILTER), ref.String();
    if HasDependent(l, k) {
      var r, d :| r in l && d in r.requirements && d.String() == k;
      var i :| 0 <= i < |r.requirements| && r.requirements[i] == d;
      assert r.DepKeys()[i] == k;
    }
    if r :| Stored(db.routes, r) && k in r.DepKeys() {
      var i :| 0 <= i < |r.DepKeys()| && r.DepKeys()[i] == k;
      assert r in l && r.requirements[i] in r.requirements;
    }
  }

  /**
   Removing a route that no stored route requires: if the registry resolved before, it resolves after,
   to the old order with that route deleted.
   */
  lemma RemovalDeletesFromOrder(db: Db, ref: RouteRef)
    requires Consistent(db) && ResolutionOrder(db).Success? && Has(db.routes, ref)
    requires DependentsOf(db, ref) == []
    ensures Remove(db, ref).Success?
    ensures ResolutionOrder(Remove(db, ref).value)
            == Success(Without(ResolutionOrder(db).value, Lookup(db.routes, ref)))
  {
    hide RouteRef.String, Consistent, List, Stored, DistinctRefs, Resolve, HasDependent, Route.DepKeys, DependentsOf, WellBucketed, FirstFault, Index;
    var after := Remove(db, ref).value;
    var r, l, l' := Lookup(db.routes, ref), List(db.routes, NO_FILTER), List(after.routes, NO_FILTER);
    ConsistentBuckets(db);
    StoredUnderItsRef(db.routes, ref);
    RemoveKeepsConsistency(db, ref);
    ConsistentBuckets(after);
    ListExact(db.routes, NO_FILTER);
    ListExact(after.routes, NO_FILTER);
    assert Stored(db.routes, r) by { StoredLookup(db.routes, ref); }
    forall p ensures p in l' <==> p in Without(l, r) { RemovedStored(db, ref, p); }
    WithoutDistinct(l, r);
    SameMembersSameBag(Without(l, r), l');
    NoDependentsIff(db, ref);
    NoDependentEither(db, ref);
    NoFaultWhenResolved(l);
    RemoveUnrequired(l, r);
    NoFaultWhenResolved(Without(l, r));
    ResolveDeterministic(Without(l, r), l');
  }

  lemma StoredLookup(b: Buckets, ref: RouteRef)
    requires WellBucketed(b) && Has(b, ref)
    ensures Stored(b, Lookup(b, ref))
  {
    StoredUnderItsRef(b, ref);
  }

  lemma NoFaultWhenResolved(routes: seq<Route>)
    requires Resolve(routes).Success?
    ensures FirstFault(routes, Index(routes)).None?
  {}

  /** Removing a route that another stored route requires leaves a registry that reports a fault. */
  lemma RemovalOfRequiredFails(db: Db, ref: RouteRef, p: Route)
    requires Consistent(db) && Has(db.routes, ref)
    requires Stored(db.routes, p) && p.Ref() != ref && ref.String() in p.DepKeys()
    ensures Remove(db, ref).Success?
    ensures ResolutionOrder(Remove(db, ref).value).Failure? && ResolutionOrder(Remove(db, ref).value).error.Fault()
  {
    hide RouteRef.String, Consistent, List, Route.DepKeys, WellBucketed, FirstFault, Index, Validates, RouteKey;
    var after := Remove(db, ref).value;
    var l := List(after.routes, NO_FILTER);
    ConsistentBuckets(db);
    RemoveKeepsConsistency(db, ref);
    ConsistentBuckets(after);
    ListExact(after.routes, NO_FILTER);
    RemovedNeeds(db, ref, p.Ref());
    var q := Lookup(after.routes, p.Ref());
    StoredLookup(after.routes, p.Ref());
    StoredUnderItsRef(after.routes, p.Ref());
    var d := RequirementNamed(p, ref.String());
    if AllPresent(l) { assert d in q.requirements; AbsentAfterRemoval(db, ref); }
    NoFaultIff(l);
    FirstFaultNone(l, Index(l));
  }

  lemma RequirementNamed(p: Route, k: string) returns (d: RouteRef)
    requires k in p.DepKeys()
    ensures d in p.requirements && d.String() == k
  {
    var i :| 0 <= i < |p.DepKeys()| && p.DepKeys()[i] == k;
    d := p.requirements[i];
  }

  lemma RemovedNeeds(db: Db, ref: RouteRef, x: RouteRef)
    requires Consistent(db) && Has(db.routes, ref)
    ensures Has(Remove(db, ref).value.routes, x) <==> x != ref && Has(db.routes, x)
    ensures x != ref ==> NeedsAt(Remove(db, ref).value.routes, x) == NeedsAt(db.routes, x)
  {
    hide RouteRef.String, Consistent, RemoveTx, Has, Lookup, WellBucketed, Route.DepKeys;
    RemoveExact(db, ref, x);
  }

  lemma AbsentAfterRemoval(db: Db, ref: RouteRef)
    requires Consistent(db) && Has(db.routes, ref) && Consistent(Remove(db, ref).value)
    ensures ref.String() !in Keys(List(Remove(db, ref).value.routes, NO_FILTER))
  {
    hide RouteRef.String, Consistent, List, WellBucketed;
    var after := Remove(db, ref).value;
    ConsistentBuckets(db);
    ConsistentBuckets(after);
    ListExact(after.routes, NO_FILTER);
    forall q | q in List(after.routes, NO_FILTER) ensures q.Key() != ref.String() {
      RemovedNeeds(db, ref, q.Ref());
      if q.Key() == ref.String() { StoredStringsDiffer(db.routes, q.Ref(), ref); }
    }
  }
}

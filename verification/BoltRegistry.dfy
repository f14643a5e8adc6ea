/** The unified registry object: transactions over the route database, and depth-first impact analysis. */
module BoltRegistry {
  import opened Wrappers
  import opened Lexical
  import opened Graph
  import opened Routes
  import opened Database
  import opened Resolver
  import opened Impact
  import Reachability

  // ----- the graph the forward index describes -----

  function StoredKeys(db: Db): set<string> {
    set t, k | t in db.routes && k in db.routes[t] :: db.routes[t][k].Key()
  }

  /** Stored keys, and the keys the forward index files them under. */
  ghost function IndexGraph(db: Db): Graph {
    map x | x in StoredKeys(db) :: set k | k in db.forward && x in KeysOf(DependentsAt(db, k))
  }

  ghost function KeysOf(routes: seq<Route>): set<string> {
    set r | r in routes :: r.Key()
  }

  lemma {:induction false} PresentAreStored(db: Db, refs: seq<RouteRef>, r: Route)
    requires r in Present(db.routes, refs)
    ensures r.Key() in StoredKeys(db)
  {
    hide RouteRef.String, Route.Key, RouteKey;
    var n := |refs| - 1;
    if r in Present(db.routes, refs[..n]) {
      PresentAreStored(db, refs[..n], r);
    }
  }

  /** In that graph the dependents of a key are the routes the index lists. */
  lemma IndexGraphDependents(db: Db, k: string)
    ensures Reachability.Dependents(IndexGraph(db), k) == KeysOf(DependentsAt(db, k))
  {
    hide RouteRef.String, Route.Key, StoredKeys;
    forall x | x in KeysOf(DependentsAt(db, k)) ensures x in StoredKeys(db) && k in db.forward {
      var r :| r in DependentsAt(db, k) && r.Key() == x;
      PresentAreStored(db, At(db.forward, k), r);
    }
  }

  // ----- index maintenance inside a transaction -----

  method UpdateDependencyIndexes(tx: Db, route: Route) returns (out: Db)
    ensures out == AddIndexes(tx, route)
  {
    hide RouteRef.String;
    var reverse, forward := tx.reverse, tx.forward;
    if |route.requirements| > 0 {
      reverse := reverse[route.Key() := route.requirements];
    }
    for i := 0 to |route.requirements|
      invariant forward == AddForward(tx.forward, route.requirements[..i], route.Ref())
    {
      var depKey := route.requirements[i].String();
      var dependents: seq<RouteRef> := [];
      if depKey in forward { dependents := forward[depKey]; }
      assert route.requirements[..i + 1][..i] == route.requirements[..i];
      forward := forward[depKey := dependents + [route.Ref()]];
    }
    assert route.requirements[..|route.requirements|] == route.requirements;
    out := Db(tx.routes, forward, reverse);
  }

  method FilterOut(refs: seq<RouteRef>, key: string) returns (filtered: seq<RouteRef>)
    ensures filtered == KeepOthers(refs, key)
  {
    hide RouteRef.String;
    filtered := [];
    for i := 0 to |refs|
      invariant filtered == KeepOthers(refs[..i], key)
    {
      assert refs[..i + 1][..i] == refs[..i];
      if refs[i].String() != key {
        filtered := filtered + [refs[i]];
      }
    }
    assert refs[..|refs|] == refs;
  }

  method RemoveDependencyIndexes(tx: Db, ref: RouteRef) returns (out: Db)
    ensures out == RemoveIndexes(tx, ref)
  {
    hide RouteRef.String;
    var key := ref.String();
    var forward := tx.forward;
    if key in tx.reverse {
      var deps := tx.reverse[key];
      for i := 0 to |deps|
        invariant forward == DropForward(tx.forward, deps[..i], key)
      {
        var depKey := deps[i].String();
        assert deps[..i + 1][..i] == deps[..i];
        if depKey in forward {
          var filtered := FilterOut(forward[depKey], key);
          if |filtered| == 0 {
            forward := forward - {depKey};
          } else {
            forward := forward[depKey := filtered];
          }
        }
      }
      assert deps[..|deps|] == deps;
    }
    out := Db(tx.routes, forward, tx.reverse - {key});
  }

  // ----- listing -----

  lemma SortedKeysPresent(bucket: map<string, Route>)
    ensures forall k :: k in SortedOf(bucket.Keys) ==> k in bucket
  {
    SortedOfExact(bucket.Keys);
  }

  lemma NothingVisited()
    ensures Distinct<string>([]) && Elems<string>([]) == {}
  {}

  /** A bucket's keys in the byte order in which a cursor visits them. */
  method CursorKeys(bucket: map<string, Route>) returns (keys: seq<string>)
    ensures keys == SortedOf(bucket.Keys) && forall k :: k in keys ==> k in bucket
  {
    hide Leq, Ascending, Sort, Distinct, Elems;
    NothingVisited();
    keys := [];
    var rest := bucket.Keys;
    while rest != {}
      invariant rest <= bucket.Keys && Distinct(keys) && Elems(keys) == bucket.Keys - rest
      decreases rest
    {
      var k :| k in rest;
      AppendNew(keys, k);
      keys := keys + [k];
      rest := rest - {k};
    }
    assert Elems(keys) == bucket.Keys;
    SortDistinct(keys);
    SortedKeysPresent(bucket);
    keys := Sort(keys);
  }

  method ListBucketRoutes(b: Buckets, typ: string, opts: ListOptions) returns (routes: seq<Route>)
    ensures routes == ListBucket(b, typ, opts)
  {
    hide ListOptions.Matches, Elems;
    routes := [];
    if typ in b {
      var bucket := b[typ];
      var keys := CursorKeys(bucket);
      for i := 0 to |keys|
        invariant routes == Matching(bucket, keys[..i], opts)
      {
        assert keys[..i + 1][..i] == keys[..i] && keys[..i + 1][i] == keys[i];
        var route := bucket[keys[i]];
        if opts.Matches(route) {
          routes := routes + [route];
        }
      }
      assert keys[..|keys|] == keys;
    }
  }

  /** The names of the plugin routes, in the given order. */
  function PluginNames(routes: seq<Route>): seq<string> {
    if routes == [] then [] else
      var front, r := PluginNames(routes[..|routes| - 1]), routes[|routes| - 1];
      if r.typ == PLUGIN then front + [r.name] else front
  }

  datatype OrderError = RegistryClosed | Unresolved(error: ResolveError)

  /** The visited map that the branches of one exploration share. */
  class VisitedSet {
    var keys: set<string>

    constructor (keys: set<string>)
      ensures this.keys == keys
    {
      this.keys := keys;
    }
  }

  /** `dep` requires nothing stored except `ref`. */
  predicate LosesItsOnlyDependency(db: Db, dep: RouteRef, ref: RouteRef) {
    forall d :: d in DependenciesOf(db, dep) ==> d.Key() == ref.String()
  }

  function OrphanedBy(db: Db, dependents: seq<Route>, ref: RouteRef): seq<RouteRef> {
    if dependents == [] then [] else
      var front, d := OrphanedBy(db, dependents[..|dependents| - 1], ref), dependents[|dependents| - 1].Ref();
      if LosesItsOnlyDependency(db, d, ref) then front + [d] else front
  }

  /** From how many of the dependents the route with key `x` is dragged along, no way to them passing `ref`. */
  ghost function Dragged(g: Graph, dependents: seq<Route>, x: string, ref: string): nat {
    if dependents == [] then 0 else
      Dragged(g, dependents[..|dependents| - 1], x, ref)
      + if Reachability.ReachesAvoiding(g, x, dependents[|dependents| - 1].Key(), {ref}) then 1 else 0
  }

  /** The routes affected through dependents: one exploration per dependent, each listing a route once. */
  ghost predicate TransitiveExact(db: Db, ref: RouteRef, dependents: seq<Route>, transitive: seq<RouteRef>) {
    forall x :: multiset(Strings(transitive))[x] == Dragged(IndexGraph(db), dependents, x, ref.String())
  }

  lemma {:induction false} DraggedPositive(g: Graph, dependents: seq<Route>, x: string, ref: string)
    ensures Dragged(g, dependents, x, ref) > 0 <==>
            exists d :: d in KeysOf(dependents) && Reachability.ReachesAvoiding(g, x, d, {ref})
  {
    hide Reachability.ReachesAvoiding, Route.Key;
    if dependents != [] {
      var n := |dependents| - 1;
      DraggedPositive(g, dependents[..n], x, ref);
      assert dependents == dependents[..n] + [dependents[n]];
      assert KeysOf(dependents) == KeysOf(dependents[..n]) + {dependents[n].Key()};
    }
  }

  class BoltUnifiedRegistry {
    var db: Db
    var closed: bool

    constructor ()
      ensures db == EmptyDb() && !closed
    {
      db := EmptyDb();
      closed := false;
    }

    /** What a read sees; on a closed registry every lookup fails. */
    function Readable(): Buckets
      reads this
    {
      if closed then map[] else db.routes
    }

    method Get(ref: RouteRef) returns (result: Result<Route, StoreError>)
      ensures result == if closed then Failure(Closed)
                        else if Has(db.routes, ref) then Success(Lookup(db.routes, ref)) else Failure(NotFound)
    {
      if closed { return Failure(Closed); }
      if ref.typ !in db.routes { return Failure(NotFound); }
      var key := RouteKey(ref.domain, ref.name);
      if key !in db.routes[ref.typ] { return Failure(NotFound); }
      return Success(db.routes[ref.typ][key]);
    }

    method CheckTrustBoundary(consumer: TrustLevel, provider: RouteRef) returns (ok: bool)
      ensures ok <==> (Has(Readable(), provider) ==> Lookup(Readable(), provider).trustLevel <= consumer)
      ensures ok == TrustAllows(consumer, TrustOf(Readable(), provider))
    {
      var found := Get(provider);
      if found.Failure? {
        return TrustAllows(consumer, TRUST_L1);
      }
      return TrustAllows(consumer, found.value.trustLevel);
    }

    /** Validation and the trust check that precede Register and HotSwap. */
    method Check(route: Route) returns (fault: Option<StoreError>)
      ensures fault == Admit(Readable(), route)
    {
      if !Validates(route) { return Some(InvalidRoute); }
      var deps := route.requirements;
      for i := 0 to |deps|
        invariant TrustFault(Readable(), route.trustLevel, deps) == TrustFault(Readable(), route.trustLevel, deps[i..])
      {
        var ok := CheckTrustBoundary(route.trustLevel, deps[i]);
        if !ok { return Some(BelowTrust(deps[i])); }
        assert deps[i..][1..] == deps[i + 1..];
      }
      return None;
    }

    /** How a checked write ends: the fault, the closed error, or the committed or abandoned transaction. */
    ghost predicate Ends(before: Db, fault: Option<StoreError>, attempt: Result<Db, StoreError>, result: Result<(), StoreError>)
      reads this
    {
      if fault.Some? then result == Failure(fault.value) && db == before
      else if closed then result == Failure(Closed) && db == before
      else match attempt
        case Success(after) => result == Success(()) && db == after
        case Failure(e) => result == Failure(e) && db == before
    }

    method Register(route: Route) returns (result: Result<(), StoreError>)
      modifies this
      ensures closed == old(closed)
      ensures Ends(old(db), Admit(old(Readable()), route), Database.Register(old(db), route), result)
    {
      var fault := Check(route);
      if fault.Some? { return Failure(fault.value); }
      var r := WithDefaults(route);
      if closed { return Failure(Closed); }
      var key := RouteKey(r.domain, r.name);
      if r.typ !in db.routes { return Failure(NotFound); }
      if key in db.routes[r.typ] { return Failure(AlreadyExists); }
      var tx := db.(routes := Put(db.routes, r.typ, key, r));
      tx := UpdateDependencyIndexes(tx, r);
      db := tx;
      return Success(());
    }

    method HotSwap(ref: RouteRef, route: Route) returns (result: Result<(), StoreError>)
      modifies this
      ensures closed == old(closed)
      ensures Ends(old(db), Admit(old(Readable()), route), Database.HotSwap(old(db), ref, route), result)
    {
      var fault := Check(route);
      if fault.Some? { return Failure(fault.value); }
      if closed { return Failure(Closed); }
      if !Has(db.routes, ref) { return Failure(NotFound); }
      var oldKey := RouteKey(ref.domain, ref.name);
      var r := Succeeding(Lookup(db.routes, ref), route);
      var tx := RemoveDependencyIndexes(db, ref);
      var newKey := RouteKey(r.domain, r.name);
      if newKey != oldKey {
        tx := tx.(routes := Delete(tx.routes, ref.typ, oldKey));
      }
      tx := tx.(routes := Put(tx.routes, ref.typ, newKey, r));
      tx := UpdateDependencyIndexes(tx, r);
      db := tx;
      return Success(());
    }

    method Update(ref: RouteRef, payload: string) returns (result: Result<(), StoreError>)
      modifies this
      ensures closed == old(closed)
      ensures Ends(old(db), None, Database.Update(old(db), ref, payload), result)
    {
      if closed { return Failure(Closed); }
      if !Has(db.routes, ref) { return Failure(NotFound); }
      var route := Lookup(db.routes, ref).(payload := payload);
      db := db.(routes := Put(db.routes, ref.typ, RouteKey(ref.domain, ref.name), route));
      return Success(());
    }

    method SetEnabled(ref: RouteRef, enabled: bool, state: string) returns (result: Result<(), StoreError>)
      modifies this
      ensures closed == old(closed)
      ensures Ends(old(db), None, Database.SetEnabled(old(db), ref, enabled, state), result)
    {
      if closed { return Failure(Closed); }
      if !Has(db.routes, ref) { return Failure(NotFound); }
      var route := Lookup(db.routes, ref);
      if route.enabled == enabled && route.state == state { return Success(()); }
      route := route.(enabled := enabled, state := state);
      db := db.(routes := Put(db.routes, ref.typ, RouteKey(ref.domain, ref.name), route));
      return Success(());
    }

    /** Resolves the references an index bucket holds, skipping dangling ones. */
    method Fetch(refs: seq<RouteRef>) returns (routes: seq<Route>)
      requires !closed
      ensures routes == Present(db.routes, refs)
    {
      routes := [];
      for i := 0 to |refs|
        invariant routes == Present(db.routes, refs[..i])
      {
        assert refs[..i + 1][..i] == refs[..i];
        var found := Get(refs[i]);
        if found.Success? {
          routes := routes + [found.value];
        }
      }
      assert refs[..|refs|] == refs;
    }

    method Dependents(ref: RouteRef) returns (result: Result<seq<Route>, StoreError>)
      ensures result == if closed then Failure(Closed) else Success(DependentsOf(db, ref))
    {
      if closed { return Failure(Closed); }
      var refs: seq<RouteRef> := [];
      if ref.String() in db.forward { refs := db.forward[ref.String()]; }
      var routes := Fetch(refs);
      return Success(routes);
    }

    method Dependencies(ref: RouteRef) returns (result: Result<seq<Route>, StoreError>)
      ensures result == if closed then Failure(Closed) else Success(DependenciesOf(db, ref))
    {
      if closed { return Failure(Closed); }
      var refs: seq<RouteRef> := [];
      if ref.String() in db.reverse { refs := db.reverse[ref.String()]; }
      var routes := Fetch(refs);
      return Success(routes);
    }

    /** Depth-first search over the persisted index; `visited` is shared by all branches. */
    method ComputeTransitiveDependents(ref: RouteRef, visited: VisitedSet) returns (result: seq<RouteRef>)
      modifies visited
      decreases StoredKeys(db) - visited.keys
      ensures closed ==> result == [] && visited.keys == old(visited.keys)
      ensures !closed ==>
                && Reachability.Explored(IndexGraph(db), ref.String(), old(visited.keys), visited.keys, Strings(result))
                && Reachability.Dependents(IndexGraph(db), ref.String()) <= visited.keys
    {
      hide RouteRef.String, IndexGraph, StoredKeys, Reachability.Dependents, Reachability.ReachesAvoiding, Distinct, Elems, Reachability.Explored;
      result := [];
      var dependents := Dependents(ref);
      if dependents.Failure? { return; }
      var deps := dependents.value;
      ghost var g, u, before := IndexGraph(db), ref.String(), visited.keys;
      NothingExplored(g, u, before);
      for i := 0 to |deps|
        invariant Reachability.Explored(g, u, before, visited.keys, Strings(result))
        invariant before <= visited.keys
        invariant forall r :: r in deps[..i] ==> r.Key() in visited.keys
      {
        var dep := deps[i];
        assert deps[..i + 1] == deps[..i] + [dep];
        var depStr := dep.Ref().String();
        if depStr in visited.keys { continue; }
        PresentAreStored(db, At(db.forward, u), dep);
        DirectIsDependent(db, u, dep);
        ghost var now, out := visited.keys, Strings(result);
        visited.keys := visited.keys + {depStr};
        result := result + [dep.Ref()];
        var transitive := ComputeTransitiveDependents(dep.Ref(), visited);
        Reachability.ExploreStep(g, u, before, now, out, depStr, visited.keys, Strings(transitive));
        ThreeStrings(result[..|result| - 1], dep.Ref(), transitive);
        ExploredGrows(g, depStr, now + {depStr}, visited.keys, Strings(transitive));
        result := result + transitive;
      }
      assert deps[..|deps|] == deps;
      AllDirectVisited(db, u, visited.keys);
    }

    /** The effect of removing `ref`: its dependents, what they drag along, and who is left without a dependency. */
    method Impact(ref: RouteRef) returns (impact: RemovalImpact)
      ensures closed ==> impact == RemovalImpact([], [], [])
      ensures !closed ==>
                && impact.direct == Refs(DependentsOf(db, ref))
                && TransitiveExact(db, ref, DependentsOf(db, ref), impact.transitive)
                && impact.orphaned == OrphanedBy(db, DependentsOf(db, ref), ref)
    {
      hide RouteRef.String, IndexGraph, Reachability.Dependents, Reachability.ReachesAvoiding, Distinct, Elems, Reachability.Explored;
      impact := RemovalImpact([], [], []);
      var dependents := Dependents(ref);
      if dependents.Failure? { return; }
      var deps := dependents.value;
      for i := 0 to |deps|
        invariant impact.direct == Refs(deps[..i])
        invariant TransitiveExact(db, ref, deps[..i], impact.transitive)
        invariant impact.orphaned == OrphanedBy(db, deps[..i], ref)
      {
        var dep := deps[i];
        assert deps[..i + 1][..i] == deps[..i];
        var visited := new VisitedSet({ref.String()});
        var transitive := ComputeTransitiveDependents(dep.Ref(), visited);
        OneMoreDependent(db, ref, deps[..i], dep, impact.transitive, transitive, visited.keys);
        assert deps[..i] + [dep] == deps[..i + 1];
        var remaining := Dependencies(dep.Ref());
        var hasOther := SomeOther(remaining.value, ref);
        RefsAppend(deps[..i], dep);
        impact := RemovalImpact(impact.direct + [dep.Ref()], impact.transitive + transitive,
                                if hasOther then impact.orphaned else impact.orphaned + [dep.Ref()]);
      }
      assert deps[..|deps|] == deps;
    }

    method Remove(ref: RouteRef) returns (impact: RemovalImpact, result: Result<(), StoreError>)
      modifies this
      ensures closed == old(closed)
      ensures Ends(old(db), None, Database.Remove(old(db), ref), result)
      ensures !closed ==> impact.direct == Refs(DependentsOf(old(db), ref))
      ensures !closed ==> TransitiveExact(old(db), ref, DependentsOf(old(db), ref), impact.transitive)
      ensures !closed ==> impact.orphaned == OrphanedBy(old(db), DependentsOf(old(db), ref), ref)
    {
      hide RouteRef.String, TransitiveExact, DropForward;
      impact := Impact(ref);
      if closed { return impact, Failure(Closed); }
      if !Has(db.routes, ref) { return impact, Failure(NotFound); }
      var tx := RemoveDependencyIndexes(db, ref);
      var b := tx.routes;
      for i := 0 to |impact.direct|
        invariant b == MarkAllOrphaned(db.routes, impact.direct[..i])
      {
        assert impact.direct[..i + 1][..i] == impact.direct[..i];
        b := MarkOrphaned(b, impact.direct[i]);
      }
      assert impact.direct[..|impact.direct|] == impact.direct;
      if ref.typ in b {
        b := Delete(b, ref.typ, RouteKey(ref.domain, ref.name));
      }
      db := tx.(routes := b);
      result := Success(());
    }

    method Enable(ref: RouteRef) returns (result: Result<(), StoreError>)
      modifies this
      ensures closed == old(closed)
      ensures Ends(old(db), None, Database.SetEnabled(old(db), ref, true, "active"), result)
    {
      result := SetEnabled(ref, true, STATE_ACTIVE);
    }

    method Disable(ref: RouteRef) returns (impact: RemovalImpact, result: Result<(), StoreError>)
      modifies this
      ensures closed == old(closed)
      ensures Ends(old(db), None, Database.SetEnabled(old(db), ref, false, "inactive"), result)
      ensures !closed ==> impact.direct == Refs(DependentsOf(old(db), ref))
      ensures !closed ==> TransitiveExact(old(db), ref, DependentsOf(old(db), ref), impact.transitive)
      ensures !closed ==> impact.orphaned == OrphanedBy(old(db), DependentsOf(old(db), ref), ref)
    {
      hide RouteRef.String, TransitiveExact;
      impact := Impact(ref);
      result := SetEnabled(ref, false, STATE_INACTIVE);
    }

    method Close()
      modifies this
      ensures closed && db == old(db)
    {
      closed := true;
    }

    method List(opts: ListOptions) returns (result: Result<seq<Route>, StoreError>)
      ensures result == if closed then Failure(Closed) else Success(Database.List(db.routes, opts))
    {
      if closed { return Failure(Closed); }
      var routes: seq<Route> := [];
      if opts.typ.Some? {
        routes := ListBucketRoutes(db.routes, opts.typ.value, opts);
        return Success(routes);
      }
      for i := 0 to |ROUTE_TYPES|
        invariant routes == ListTypes(db.routes, ROUTE_TYPES[..i], opts)
      {
        assert ROUTE_TYPES[..i + 1][..i] == ROUTE_TYPES[..i];
        var part := ListBucketRoutes(db.routes, ROUTE_TYPES[i], opts);
        routes := routes + part;
      }
      assert ROUTE_TYPES[..|ROUTE_TYPES|] == ROUTE_TYPES;
      return Success(routes);
    }

    method ResolutionOrder() returns (result: Result<seq<Route>, OrderError>)
      ensures closed ==> result == Failure(RegistryClosed)
      ensures !closed ==> result == match Resolve(Database.List(db.routes, NO_FILTER))
                                    case Success(order) => Success(order)
                                    case Failure(e) => Failure(Unresolved(e))
    {
      hide Resolve, Database.List;
      var routes := List(NO_FILTER);
      if routes.Failure? { return Failure(RegistryClosed); }
      var order := ResolveOrder(routes.value);
      match order
      case Success(sorted) => return Success(sorted);
      case Failure(e) => return Failure(Unresolved(e));
    }

    method PluginStartupOrder() returns (result: Result<seq<string>, OrderError>)
      ensures closed ==> result == Failure(RegistryClosed)
      ensures !closed ==> result == match Resolve(Database.List(db.routes, NO_FILTER))
                                    case Success(order) => Success(PluginNames(order))
                                    case Failure(e) => Failure(Unresolved(e))
    {
      hide Resolve, Database.List;
      var order := ResolutionOrder();
      if order.Failure? { return Failure(order.error); }
      var names: seq<string> := [];
      var routes := order.value;
      for i := 0 to |routes|
        invariant names == PluginNames(routes[..i])
      {
        assert routes[..i + 1][..i] == routes[..i];
        if routes[i].typ == PLUGIN {
          names := names + [routes[i].name];
        }
      }
      assert routes[..|routes|] == routes;
      return Success(names);
    }
  }

  method SomeOther(remaining: seq<Route>, ref: RouteRef) returns (found: bool)
    ensures found <==> exists d :: d in remaining && d.Key() != ref.String()
  {
    hide RouteRef.String;
    found := false;
    for i := 0 to |remaining|
      invariant found <==> exists d :: d in remaining[..i] && d.Key() != ref.String()
    {
      assert remaining[..i + 1] == remaining[..i] + [remaining[i]];
      if remaining[i].Ref().String() != ref.String() {
        assert remaining[i] in remaining[..i + 1];
        found := true;
      }
    }
    assert remaining[..|remaining|] == remaining;
  }

  // ----- steps of the exploration -----

  lemma NothingExplored(g: Graph, u: string, before: set<string>)
    ensures Reachability.Explored(g, u, before, before, Strings([]))
  {
    assert Strings([]) == [];
  }

  lemma DirectIsDependent(db: Db, u: string, dep: Route)
    requires dep in DependentsAt(db, u)
    ensures dep.Key() in Reachability.Dependents(IndexGraph(db), u)
  {
    hide RouteRef.String, IndexGraph;
    IndexGraphDependents(db, u);
  }

  lemma AllDirectVisited(db: Db, u: string, now: set<string>)
    requires forall r :: r in DependentsAt(db, u) ==> r.Key() in now
    ensures Reachability.Dependents(IndexGraph(db), u) <= now
  {
    hide RouteRef.String, IndexGraph, Reachability.Dependents;
    IndexGraphDependents(db, u);
  }

  lemma ThreeStrings(a: seq<RouteRef>, d: RouteRef, b: seq<RouteRef>)
    ensures Strings(a + [d] + b) == Strings(a) + [d.String()] + Strings(b)
  {
    hide RouteRef.String;
  }

  lemma ExploredGrows(g: Graph, u: string, before: set<string>, now: set<string>, out: seq<string>)
    requires Reachability.Explored(g, u, before, now, out)
    ensures before <= now
  {}

  lemma RefsAppend(deps: seq<Route>, d: Route)
    ensures Refs(deps + [d]) == Refs(deps) + [d.Ref()]
  {}

  lemma OneMoreDependent(db: Db, ref: RouteRef, deps: seq<Route>, dep: Route, transitive: seq<RouteRef>, more: seq<RouteRef>, now: set<string>)
    requires TransitiveExact(db, ref, deps, transitive)
    requires Reachability.Explored(IndexGraph(db), dep.Key(), {ref.String()}, now, Strings(more))
    requires Reachability.Dependents(IndexGraph(db), dep.Key()) <= now
    ensures TransitiveExact(db, ref, deps + [dep], transitive + more)
  {
    hide RouteRef.String, IndexGraph, Reachability.Dependents, Reachability.ReachesAvoiding, Reachability.Explored, Route.Key;
    StringsConcat(transitive, more);
    assert (deps + [dep])[..|deps + [dep]| - 1] == deps;
    ExploredOnce(IndexGraph(db), dep.Key(), {ref.String()}, now, Strings(more));
    forall x
      ensures multiset(Strings(transitive + more))[x] == Dragged(IndexGraph(db), deps + [dep], x, ref.String())
    {
      Reachability.WhitePath(IndexGraph(db), dep.Key(), {ref.String()}, now, Strings(more), x);
    }
  }

  lemma ExploredOnce(g: Graph, u: string, before: set<string>, now: set<string>, out: seq<string>)
    requires Reachability.Explored(g, u, before, now, out)
    ensures forall x :: multiset(out)[x] == if x in out then 1 else 0
  {
    DistinctMultiset(out);
  }
}

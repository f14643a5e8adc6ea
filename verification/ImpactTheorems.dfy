/** Both impact analyses compute exact reachability, so they agree; and what the startup order guarantees along chains. */
module ImpactTheorems {
  import opened Lexical
  import opened Graph
  import opened Routes
  import opened Database
  import opened IndexTheorems
  import opened RegistryTheorems
  import opened Resolver
  import opened ResolverTheorems
  import opened Impact
  import opened BoltRegistry
  import Reachability

  /** The requires-graph of everything stored. */
  ghost function StoredGraph(db: Db): Graph {
    ReqGraph(Database.List(db.routes, NO_FILTER))
  }

  lemma StoredKeysExact(db: Db, x: string)
    requires Consistent(db)
    ensures x in StoredKeys(db) <==> exists r :: Stored(db.routes, r) && r.Key() == x
  {
    hide RouteRef.String, ForwardExact, ReverseExact, RouteKey, Validates;
    if x in StoredKeys(db) {
      var t, k :| t in db.routes && k in db.routes[t] && db.routes[t][k].Key() == x;
      assert Stored(db.routes, db.routes[t][k]);
    }
    if r :| Stored(db.routes, r) && r.Key() == x {
      assert db.routes[r.typ][RouteKey(r.domain, r.name)].Key() == x;
    }
  }

  lemma IndexEdge(db: Db, x: string, k: string)
    requires Consistent(db)
    ensures x in KeysOf(DependentsAt(db, k)) <==> exists r :: Stored(db.routes, r) && r.Key() == x && k in r.DepKeys()
  {
    hide RouteRef.String, Consistent, Route.Key, Route.DepKeys, DependentsAt, Stored;
    if x in KeysOf(DependentsAt(db, k)) {
      var r :| r in DependentsAt(db, k) && r.Key() == x;
      DependentsAreAScan(db, k, r);
    }
    if r :| Stored(db.routes, r) && r.Key() == x && k in r.DepKeys() {
      DependentsAreAScan(db, k, r);
      assert multiset(DependentsAt(db, k))[r] > 0;
    }
  }

  lemma RequirementEdge(routes: seq<Route>, x: string, k: string)
    ensures k in RequirementsOf(routes, x) <==> exists r :: r in routes && r.Key() == x && k in r.DepKeys()
  {
    hide RouteRef.String;
    if k in RequirementsOf(routes, x) {
      var r, d :| r in routes && r.Key() == x && d in r.requirements && d.String() == k;
      StringsMember(r.requirements, d);
    }
    if r :| r in routes && r.Key() == x && k in r.DepKeys() {
      var i :| 0 <= i < |r.DepKeys()| && r.DepKeys()[i] == k;
      assert r.requirements[i] in r.requirements;
    }
  }

  /** In a consistent database the forward index describes the requires-graph of the stored routes. */
  lemma IndexGraphIsStoredGraph(db: Db)
    requires Consistent(db)
    ensures IndexGraph(db) == StoredGraph(db)
  {
    hide RouteRef.String, Consistent, Route.Key, Route.DepKeys, Stored, StoredKeys, DependentsAt, Database.List, RequirementsOf, KeysOf;
    var l := Database.List(db.routes, NO_FILTER);
    ConsistentBuckets(db);
    ListExact(db.routes, NO_FILTER);
    forall x ensures x in StoredKeys(db) <==> x in Keys(l) {
      StoredKeysExact(db, x);
    }
    forall x | x in StoredKeys(db) ensures IndexGraph(db)[x] == RequirementsOf(l, x) {
      forall k ensures k in IndexGraph(db)[x] <==> k in RequirementsOf(l, x) {
        IndexEdge(db, x, k);
        RequirementEdge(l, x, k);
        if k !in db.forward { NotFiled(db, k); }
      }
    }
    assert IndexGraph(db).Keys == StoredGraph(db).Keys;
  }

  lemma NotFiled(db: Db, k: string)
    requires k !in db.forward
    ensures KeysOf(DependentsAt(db, k)) == {}
  {}

  lemma RefsKeys(routes: seq<Route>, x: string)
    ensures x in Strings(Refs(routes)) <==> x in KeysOf(routes)
  {
    hide RouteRef.String;
    if x in Strings(Refs(routes)) {
      var i :| 0 <= i < |routes| && Strings(Refs(routes))[i] == x;
      assert routes[i] in routes;
    }
    if x in KeysOf(routes) {
      var r :| r in routes && r.Key() == x;
      var i :| 0 <= i < |routes| && routes[i] == r;
      assert Strings(Refs(routes))[i] == x;
    }
  }

  /**
   Impact is exact: apart from the route itself, the affected routes are those that reach it through `Requires`,
   on cyclic registries too; the direct ones are its stored dependents.
   */
  lemma ImpactIsReachability(db: Db, ref: RouteRef, impact: RemovalImpact, x: string)
    requires Consistent(db) && x != ref.String()
    requires impact.direct == Refs(DependentsOf(db, ref))
    requires TransitiveExact(db, ref, DependentsOf(db, ref), impact.transitive)
    ensures x in Strings(impact.direct) || x in Strings(impact.transitive) <==> Reaches(StoredGraph(db), x, ref.String())
    ensures x in Strings(impact.direct) <==> x in Reachability.Dependents(StoredGraph(db), ref.String())
  {
    hide RouteRef.String, Consistent, DependentsAt, IndexGraph, StoredGraph, Reachability.Dependents, Reaches, Reachability.ReachesAvoiding;
    IndexGraphIsStoredGraph(db);
    IndexGraphDependents(db, ref.String());
    RefsKeys(DependentsOf(db, ref), x);
    DraggedPositive(IndexGraph(db), DependentsOf(db, ref), x, ref.String());
    assert x in Strings(impact.transitive) <==> multiset(Strings(impact.transitive))[x] > 0;
    Reachability.AffectedSplit(IndexGraph(db), ref.String(), x);
  }

  /** The search over the index and the search over the list report the same routes, apart from the route itself. */
  lemma AnalysesAgree(db: Db, route: Route, dfs: RemovalImpact, bfs: RemovalImpact, x: string)
    requires Consistent(db) && x != route.Key()
    requires dfs.direct == Refs(DependentsOf(db, route.Ref()))
    requires TransitiveExact(db, route.Ref(), DependentsOf(db, route.Ref()), dfs.transitive)
    requires ImpactExact(Database.List(db.routes, NO_FILTER), route.Key(), bfs)
    ensures x in Strings(dfs.direct) || x in Strings(dfs.transitive) <==> x in Strings(bfs.direct + bfs.transitive)
    ensures x in Strings(dfs.direct) <==> x in Strings(bfs.direct)
  {
    hide RouteRef.String, Consistent, DependentsAt, TransitiveExact, Database.List, Reachability.Dependents, Reaches, Judged, Distinct;
    ImpactIsReachability(db, route.Ref(), dfs, x);
  }

  lemma {:induction false} OrphanedMembers(db: Db, dependents: seq<Route>, ref: RouteRef, x: RouteRef)
    ensures x in OrphanedBy(db, dependents, ref) <==> x in Refs(dependents) && LosesItsOnlyDependency(db, x, ref)
    ensures multiset(OrphanedBy(db, dependents, ref))[x] == if LosesItsOnlyDependency(db, x, ref) then multiset(Refs(dependents))[x] else 0
  {
    hide LosesItsOnlyDependency;
    if dependents != [] {
      var n := |dependents| - 1;
      OrphanedMembers(db, dependents[..n], ref, x);
      assert dependents == dependents[..n] + [dependents[n]];
      RefsAppend(dependents[..n], dependents[n]);
    }
  }

  /** The orphaned routes are the dependents none of whose other requirements is stored. */
  lemma OrphanedExact(db: Db, ref: RouteRef, r: Route)
    requires Consistent(db) && Stored(db.routes, r)
    ensures r.Ref() in OrphanedBy(db, DependentsOf(db, ref), ref)
            <==> ref.String() in r.DepKeys()
                 && forall d :: d in r.requirements && Has(db.routes, d) ==> d.String() == ref.String()
  {
    hide RouteRef.String, Consistent, DependentsAt, Route.DepKeys, WellBucketed, OrphanedBy;
    var x := r.Ref();
    ConsistentBuckets(db);
    OrphanedMembers(db, DependentsOf(db, ref), ref, x);
    DirectIffRequires(db, ref, r);
    DependenciesAreTheRequirements(db, x);
    forall p ensures p in DependenciesOf(db, x) <==> Stored(db.routes, p) && p.Ref() in r.requirements {
      PresentCounts(db.routes, r.requirements, p);
      assert p in Present(db.routes, r.requirements) <==> multiset(Present(db.routes, r.requirements))[p] > 0;
    }
    forall d | d in r.requirements && Has(db.routes, d) ensures Lookup(db.routes, d) in DependenciesOf(db, x) && Lookup(db.routes, d).Ref() == d {
      StoredUnderItsRef(db.routes, d);
      StoredLookup(db.routes, d);
    }
  }

  /** Position `k` of the visiting order holds the first visited route that `d` requires; a direct dependent meets the start itself. */
  ghost predicate MetFrom(start: string, bfs: RemovalImpact, d: Route, k: nat) {
    var visiting := Visiting(start, bfs);
    k < |visiting| && visiting[k] in d.DepKeys() && forall m :: 0 <= m < k ==> visiting[m] !in d.DepKeys()
  }

  /**
   The search over the list judges differently: an affected route is orphaned unless some enabled listed route, other than
   the one it was met from, provides at least one of its other requirements; the rest of them may go unprovided.
   */
  lemma ListedOrphansExact(all: seq<Route>, start: string, bfs: RemovalImpact, d: Route, k: nat)
    requires DistinctRefs(all) && ImpactExact(all, start, bfs)
    requires d in all && d.Key() != start && MetFrom(start, bfs, d, k)
    ensures var c := Visiting(start, bfs)[k];
            d.Ref() in bfs.orphaned <==>
            !exists q, r :: q in d.requirements && q.String() != c && r in all && r.Key() != c && r.enabled
                            && q.String() in Strings(r.provided)
  {
    hide RouteRef.String, Reaches, Distinct, Route.DepKeys, Judged, DistinctRefs, ReqGraph, Reachability.Dependents, Strings, ImpactExact, MetFrom, Visiting;
    MetReaches(all, start, bfs, d, k);
    var k' := FirstVisited(all, start, bfs, d);
    MetOnce(start, bfs, d, k, k');
    var c := Visiting(start, bfs)[k];
    forall q, r ensures Provides(r, c, q) <==> r.Key() != c && r.enabled && q.String() in Strings(r.provided) {}
  }

  lemma DirectIsMet(start: string, bfs: RemovalImpact, d: Route)
    requires start in d.DepKeys()
    ensures MetFrom(start, bfs, d, 0) && Visiting(start, bfs)[0] == start
  {}

  lemma MetOnce(start: string, bfs: RemovalImpact, d: Route, k: nat, k': nat)
    requires MetFrom(start, bfs, d, k) && MetFrom(start, bfs, d, k')
    ensures k == k'
  {
    hide Visiting, Route.DepKeys;
  }

  lemma MetReaches(all: seq<Route>, start: string, bfs: RemovalImpact, d: Route, k: nat)
    requires ImpactExact(all, start, bfs) && d in all && MetFrom(start, bfs, d, k)
    ensures k < |Visiting(start, bfs)| && Reaches(ReqGraph(all), d.Key(), start)
  {
    hide RouteRef.String, ReqGraph, Reaches, Judged, Distinct, Route.DepKeys;
    var c := Visiting(start, bfs)[k];
    DependentsInList(all, c, d.Key());
    StringsConcat(bfs.direct, bfs.transitive);
    if k > 0 {
      var affected := Strings(bfs.direct) + Strings(bfs.transitive);
      assert affected[k - 1] == c && c in affected;
    }
    StepReaches(ReqGraph(all), d.Key(), c, start);
  }

  /** Every affected route is met from somewhere, and a direct dependent from the start. */
  lemma AffectedIsMet(all: seq<Route>, start: string, bfs: RemovalImpact, d: Route) returns (k: nat)
    requires DistinctRefs(all) && ImpactExact(all, start, bfs)
    requires d in all && d.Key() != start && Reaches(ReqGraph(all), d.Key(), start)
    ensures MetFrom(start, bfs, d, k) && k < |Visiting(start, bfs)| && (k == 0 <==> start in d.DepKeys())
  {
    hide RouteRef.String, ReqGraph, Reaches, DistinctRefs, Route.DepKeys, ImpactExact;
    k := FirstVisited(all, start, bfs, d);
    assert Visiting(start, bfs)[0] == start;
  }

  lemma FirstVisited(all: seq<Route>, start: string, bfs: RemovalImpact, d: Route) returns (k: nat)
    requires DistinctRefs(all) && ImpactExact(all, start, bfs)
    requires d in all && d.Key() != start && Reaches(ReqGraph(all), d.Key(), start)
    ensures MetFrom(start, bfs, d, k) && (d.Ref() in bfs.orphaned <==> !OtherProvider(d, Visiting(start, bfs)[k], all))
  {
    hide RouteRef.String, ReqGraph, Reachability.Dependents, Reaches, Distinct, OtherProvider, DistinctRefs, Route.DepKeys, Visiting;
    var visiting := Visiting(start, bfs);
    var ref := ListedAs(all, start, bfs, d.Key());
    assert Judged(all, visiting, ref, ref in bfs.orphaned);
    var dep, i :| 0 <= i < |visiting| && dep in all && dep.Ref() == ref && visiting[i] in dep.DepKeys()
                  && (forall m :: 0 <= m < i ==> ref.String() !in Reachability.Dependents(ReqGraph(all), visiting[m]))
                  && (ref in bfs.orphaned <==> !OtherProvider(dep, visiting[i], all));
    UniqueByKey(all, d, dep);
    forall m | 0 <= m < i ensures visiting[m] !in d.DepKeys() { DependentsInList(all, visiting[m], d.Key()); }
    k := i;
  }

  lemma ListedAs(all: seq<Route>, start: string, bfs: RemovalImpact, x: string) returns (ref: RouteRef)
    requires ImpactExact(all, start, bfs) && x != start && Reaches(ReqGraph(all), x, start)
    ensures (ref in bfs.direct || ref in bfs.transitive) && ref.String() == x
  {
    hide RouteRef.String, ReqGraph, Reaches, Judged, Distinct;
    var refs := bfs.direct + bfs.transitive;
    var i :| 0 <= i < |Strings(refs)| && Strings(refs)[i] == x;
    ref := refs[i];
  }

  /** A dependent of the route has another stored requirement, which is what the search over the index asks. */
  ghost predicate OtherStored(db: Db, start: string, d: Route) {
    exists q :: q in d.requirements && q.String() != start && Has(db.routes, q)
  }

  /** An enabled stored route other than `c` provides one of its requirements other than `c`, which is what the search over the list asks. */
  ghost predicate OtherProvided(db: Db, c: string, d: Route) {
    exists q, r :: q in d.requirements && q.String() != c && Stored(db.routes, r) && Provides(r, c, q)
  }

  /**
   The verdicts of the two analyses on a stored route that reaches the start. They agree on a direct dependent exactly when
   the two questions have the same answer, and on an indirect one exactly when the search over the list finds a provider:
   the search over the index never orphans it.
   */
  lemma VerdictsAgreeIff(db: Db, route: Route, bfs: RemovalImpact, d: Route, k: nat)
    requires Consistent(db) && ImpactExact(Database.List(db.routes, NO_FILTER), route.Key(), bfs)
    requires Stored(db.routes, d) && d.Key() != route.Key() && MetFrom(route.Key(), bfs, d, k)
    ensures var start, c := route.Key(), Visiting(route.Key(), bfs)[k];
            var byIndex, byList := d.Ref() in OrphanedBy(db, DependentsOf(db, route.Ref()), route.Ref()), d.Ref() in bfs.orphaned;
            && (byIndex <==> start in d.DepKeys() && !OtherStored(db, start, d))
            && (byList <==> !OtherProvided(db, c, d))
            && ((byIndex <==> byList) <==> if start in d.DepKeys() then OtherStored(db, start, d) <==> OtherProvided(db, start, d)
                                           else OtherProvided(db, c, d))
  {
    hide RouteRef.String, Consistent, Stored, Database.List, Route.DepKeys, OrphanedBy, ImpactExact, Has, DistinctRefs, WellBucketed, Keyed,
      Strings, Visiting;
    var all := Database.List(db.routes, NO_FILTER);
    ConsistentBuckets(db);
    ListExact(db.routes, NO_FILTER);
    ListedOrphansExact(all, route.Key(), bfs, d, k);
    OrphanedExact(db, route.Ref(), d);
    VisitingStarts(route.Key(), bfs);
    if route.Key() in d.DepKeys() { assert k == 0; }
  }

  /** What the source's comment asks: each requirement other than `c` still has a provider. */
  ghost predicate EachProvided(all: seq<Route>, c: string, d: Route) {
    forall q :: q in d.requirements && q.String() != c ==> exists r :: r in all && Provides(r, c, q)
  }

  ghost predicate NoneProvided(all: seq<Route>, c: string, d: Route) {
    forall q, r :: q in d.requirements && q.String() != c && r in all ==> !Provides(r, c, q)
  }

  ghost predicate HasOther(c: string, d: Route) {
    exists q :: q in d.requirements && q.String() != c
  }

  /**
   The search orphans an affected route just when not each of its requirements other than the one it was met from has a
   provider, exactly where there are such requirements and either all of them or none have one.
   */
  lemma EachReadingIff(all: seq<Route>, start: string, bfs: RemovalImpact, d: Route, k: nat)
    requires DistinctRefs(all) && ImpactExact(all, start, bfs)
    requires d in all && d.Key() != start && MetFrom(start, bfs, d, k)
    ensures var c := Visiting(start, bfs)[k];
            (d.Ref() in bfs.orphaned <==> !EachProvided(all, c, d))
            <==> HasOther(c, d) && (EachProvided(all, c, d) || NoneProvided(all, c, d))
  {
    hide RouteRef.String, Route.DepKeys, DistinctRefs, ImpactExact, Strings, Visiting;
    ListedOrphansExact(all, start, bfs, d, k);
    var c := Visiting(start, bfs)[k];
    forall q, r ensures Provides(r, c, q) <==> r.Key() != c && r.enabled && q.String() in Strings(r.provided) {}
    assert d.Ref() in bfs.orphaned <==> NoneProvided(all, c, d);
    if EachProvided(all, c, d) && NoneProvided(all, c, d) { assert !HasOther(c, d); }
  }

  // ----- startup order along chains -----

  lemma {:induction false} PluginNamesKeepOrder(routes: seq<Route>, i: nat, j: nat) returns (i': nat, j': nat)
    requires j < i < |routes| && routes[i].typ == PLUGIN && routes[j].typ == PLUGIN
    ensures j' < i' < |PluginNames(routes)|
    ensures PluginNames(routes)[i'] == routes[i].name && PluginNames(routes)[j'] == routes[j].name
    decreases |routes|
  {
    var n := |routes| - 1;
    if i == n {
      j' := PluginNameAt(routes[..n], j);
      i' := |PluginNames(routes)| - 1;
    } else {
      i', j' := PluginNamesKeepOrder(routes[..n], i, j);
    }
  }

  lemma {:induction false} PluginNameAt(routes: seq<Route>, j: nat) returns (j': nat)
    requires j < |routes| && routes[j].typ == PLUGIN
    ensures j' < |PluginNames(routes)| && PluginNames(routes)[j'] == routes[j].name
    decreases |routes|
  {
    var n := |routes| - 1;
    if j == n { j' := |PluginNames(routes)| - 1; } else { j' := PluginNameAt(routes[..n], j); }
  }

  /**
   When the registry resolves and plugin `a` requires its way to plugin `b`, through routes of any type,
   `b` is listed before `a` in the startup order and no route on the way is less trusted than `a`.
   */
  lemma PluginChains(db: Db, a: Route, b: Route) returns (i: nat, j: nat)
    requires Consistent(db) && RegistryTheorems.ResolutionOrder(db).Success?
    requires Stored(db.routes, a) && Stored(db.routes, b) && a.typ == PLUGIN && b.typ == PLUGIN
    requires Reaches(StoredGraph(db), a.Key(), b.Key())
    ensures var names := PluginNames(RegistryTheorems.ResolutionOrder(db).value);
            j < i < |names| && names[i] == a.name && names[j] == b.name
    ensures forall c :: Stored(db.routes, c) && Reaches(StoredGraph(db), a.Key(), c.Key()) ==> c.trustLevel <= a.trustLevel
  {
    hide RouteRef.String, Consistent, Stored, Database.List, Resolve, ReqGraph;
    var l := Database.List(db.routes, NO_FILTER);
    ConsistentBuckets(db);
    ListExact(db.routes, NO_FILTER);
    ChainsRespectTrustAndOrder(l, a, b);
    var order := RegistryTheorems.ResolutionOrder(db).value;
    var i0, j0 :| 0 <= j0 < i0 < |order| && order[i0] == a && order[j0] == b;
    i, j := PluginNamesKeepOrder(order, i0, j0);
    forall c | Stored(db.routes, c) && Reaches(StoredGraph(db), a.Key(), c.Key()) ensures c.trustLevel <= a.trustLevel {
      ChainsRespectTrustAndOrder(l, a, c);
    }
  }
}

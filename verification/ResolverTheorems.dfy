/** What `ResolveOrder` promises, proved about the function it computes. */
module ResolverTheorems {
  import opened Wrappers
  import opened Lexical
  import opened Graph
  import opened Routes
  import opened Resolver
  import Kahn

  function KeySeq(routes: seq<Route>): (ks: seq<string>)
    ensures |ks| == |routes|
  {
    seq(|routes|, i requires 0 <= i < |routes| => routes[i].Key())
  }

  ghost predicate DistinctRefs(routes: seq<Route>) {
    Distinct(KeySeq(routes))
  }

  ghost predicate AllPresent(routes: seq<Route>) {
    forall r, d :: r in routes && d in r.requirements ==> d.String() in Keys(routes)
  }

  /** No route requires a provider trusted less than itself. */
  ghost predicate TrustRespected(routes: seq<Route>) {
    forall r, d, p :: r in routes && d in r.requirements && p in routes && p.Key() == d.String()
                      ==> p.trustLevel <= r.trustLevel
  }

  // ----- faults -----

  lemma {:induction false} RouteFaultNone(r: Route, n: nat, index: map<string, Route>)
    requires n <= |r.requirements|
    ensures RouteFault(r, n, index).None? <==>
            forall j :: 0 <= j < n ==> r.requirements[j].String() in index
                                       && index[r.requirements[j].String()].trustLevel <= r.trustLevel
    ensures RouteFault(r, n, index).Some? ==> RouteFault(r, n, index).value.Fault()
  {
    if n > 0 { RouteFaultNone(r, n - 1, index); }
  }

  ghost predicate Sound(r: Route, index: map<string, Route>) {
    forall d :: d in r.requirements ==>
      d.String() in index && index[d.String()].trustLevel <= r.trustLevel
  }

  lemma {:induction false} FirstFaultNone(routes: seq<Route>, index: map<string, Route>)
    ensures FirstFault(routes, index).None? <==> forall r :: r in routes ==> Sound(r, index)
    ensures FirstFault(routes, index).Some? ==> FirstFault(routes, index).value.Fault()
  {
    if routes != [] {
      var front, r := routes[..|routes| - 1], routes[|routes| - 1];
      assert routes == front + [r];
      FirstFaultNone(front, index);
      RouteFaultNone(r, |r.requirements|, index);
      assert Sound(r, index) <==> RouteFault(r, |r.requirements|, index).None?;
    }
  }

  /** Requirement `j` of route `i` is the first one that is missing or less trusted, and `e` says so. */
  ghost predicate FaultAt(routes: seq<Route>, index: map<string, Route>, i: int, j: int, e: ResolveError) {
    && 0 <= i < |routes| && 0 <= j < |routes[i].requirements|
    && (forall r :: r in routes[..i] ==> Sound(r, index))
    && (forall m :: 0 <= m < j ==> routes[i].requirements[m].String() in index
                                   && index[routes[i].requirements[m].String()].trustLevel <= routes[i].trustLevel)
    && var dep := routes[i].requirements[j].String();
       if dep !in index then e == DependencyNotFound(routes[i].Ref(), dep)
       else index[dep].trustLevel > routes[i].trustLevel && e == TrustViolation(routes[i].Ref(), dep)
  }

  lemma {:induction false} RouteFaultFirst(r: Route, n: nat, index: map<string, Route>) returns (j: nat)
    requires n <= |r.requirements| && RouteFault(r, n, index).Some?
    ensures FaultAt([r], index, 0, j, RouteFault(r, n, index).value)
  {
    hide RouteRef.String;
    if RouteFault(r, n - 1, index).Some? {
      j := RouteFaultFirst(r, n - 1, index);
    } else {
      RouteFaultNone(r, n - 1, index);
      j := n - 1;
    }
  }

  /** A fault names the first offending requirement in the order of the input. */
  lemma {:induction false} FirstFaultExact(routes: seq<Route>, index: map<string, Route>) returns (i: nat, j: nat)
    requires FirstFault(routes, index).Some?
    ensures FaultAt(routes, index, i, j, FirstFault(routes, index).value)
  {
    hide RouteRef.String, Sound;
    var n := |routes| - 1;
    if FirstFault(routes[..n], index).Some? {
      i, j := FirstFaultExact(routes[..n], index);
      assert routes[..n][..i] == routes[..i];
    } else {
      FirstFaultNone(routes[..n], index);
      i := n;
      j := RouteFaultFirst(routes[n], |routes[n].requirements|, index);
    }
  }

  // ----- counting keys -----

  lemma KeySeqElems(routes: seq<Route>)
    ensures Elems(KeySeq(routes)) == Keys(routes)
  {
    forall r | r in routes ensures r.Key() in KeySeq(routes) {
      var i :| 0 <= i < |routes| && routes[i] == r;
      assert KeySeq(routes)[i] == r.Key();
    }
  }

  lemma DistinctIffCount(routes: seq<Route>)
    ensures |Keys(routes)| <= |routes|
    ensures |Keys(routes)| == |routes| <==> DistinctRefs(routes)
  {
    KeySeqElems(routes);
    ElemsSize(KeySeq(routes));
    if DistinctRefs(routes) { DistinctSize(KeySeq(routes)); }
    if |Keys(routes)| == |routes| { SizeDistinct(KeySeq(routes)); }
  }

  lemma UniqueByKey(routes: seq<Route>, r: Route, p: Route)
    requires DistinctRefs(routes) && r in routes && p in routes && r.Key() == p.Key()
    ensures r == p
  {
    var i :| 0 <= i < |routes| && routes[i] == r;
    var j :| 0 <= j < |routes| && routes[j] == p;
    assert KeySeq(routes)[i] == KeySeq(routes)[j];
  }

  lemma IndexFinds(routes: seq<Route>, r: Route)
    requires DistinctRefs(routes) && r in routes
    ensures r.Key() in Index(routes) && Index(routes)[r.Key()] == r
  {
    IndexKeys(routes);
    UniqueByKey(routes, r, Index(routes)[r.Key()]);
  }

  /** With distinct references the scan finds no fault exactly when every requirement is present and trusted. */
  lemma NoFaultIff(routes: seq<Route>)
    ensures FirstFault(routes, Index(routes)).None? ==> AllPresent(routes)
    ensures DistinctRefs(routes) ==>
              (FirstFault(routes, Index(routes)).None? <==> AllPresent(routes) && TrustRespected(routes))
  {
    var index := Index(routes);
    FirstFaultNone(routes, index);
    IndexKeys(routes);
    if FirstFault(routes, index).None? {
      forall r, d | r in routes && d in r.requirements ensures d.String() in Keys(routes) {
        assert Sound(r, index);
      }
    }
    if DistinctRefs(routes) {
      if FirstFault(routes, index).None? {
        forall r, d, p | r in routes && d in r.requirements && p in routes && p.Key() == d.String()
          ensures p.trustLevel <= r.trustLevel
        {
          assert Sound(r, index);
          IndexFinds(routes, p);
        }
      }
      if AllPresent(routes) && TrustRespected(routes) {
        forall r | r in routes ensures Sound(r, index) {
          forall d | d in r.requirements ensures d.String() in index && index[d.String()].trustLevel <= r.trustLevel {
            assert d.String() in Keys(routes);
          }
        }
      }
    }
  }

  lemma ReqGraphClosed(routes: seq<Route>)
    requires AllPresent(routes)
    ensures Closed(ReqGraph(routes))
  {}

  // ----- when it succeeds -----

  /** `ResolveOrder` succeeds exactly on distinct, complete, trust-respecting, acyclic inputs. */
  lemma ResolvesIff(routes: seq<Route>)
    ensures Resolve(routes).Success? <==>
            DistinctRefs(routes) && AllPresent(routes) && TrustRespected(routes) && Acyclic(ReqGraph(routes))
  {
    hide DistinctRefs, AllPresent, TrustRespected, Acyclic, Keys, ReqGraph, FirstFault, Index, Kahn.Order, Topological, Closed, SortedRoutes, LeftOut;
    var g := ReqGraph(routes);
    NoFaultIff(routes);
    DistinctIffCount(routes);
    ReqGraphNodes(routes);
    Kahn.OrderTopological(g);
    if AllPresent(routes) {
      ReqGraphClosed(routes);
      Kahn.OrderCompleteIff(g);
    }
  }

  lemma SameElements<T>(a: seq<T>, b: seq<T>)
    requires Distinct(a) && Distinct(b) && Elems(a) == Elems(b)
    ensures multiset(a) == multiset(b)
  {
    DistinctMultiset(a);
    DistinctMultiset(b);
    forall x ensures multiset(a)[x] == multiset(b)[x] {
      if x in a { assert x in Elems(a); assert x in b; } else { assert x !in Elems(b); }
    }
  }

  lemma SortedRoutesKeys(routes: seq<Route>)
    ensures KeySeq(SortedRoutes(routes)) == Kahn.Order(ReqGraph(routes))
    ensures forall r :: r in SortedRoutes(routes) ==> r in routes
  {
    hide Route.Key, RouteRef.String;
    IndexKeys(routes);
    Kahn.OrderTopological(ReqGraph(routes));
    RoutesAt(routes, Kahn.Order(ReqGraph(routes)));
  }

  /** `order` lists `routes`, each once, with everything a route requires strictly before it. */
  ghost predicate ValidOrder(routes: seq<Route>, order: seq<Route>) {
    && multiset(order) == multiset(routes)
    && forall i, d :: 0 <= i < |order| && d in order[i].requirements ==> d.String() in KeySeq(order[..i])
  }

  /** On success the sorted keys are exactly the keys of the routes. */
  lemma SortsEveryKey(routes: seq<Route>)
    requires Resolve(routes).Success?
    ensures Topological(ReqGraph(routes), Kahn.Order(ReqGraph(routes)))
    ensures Elems(Kahn.Order(ReqGraph(routes))) == Keys(routes)
  {
    hide DistinctRefs, AllPresent, TrustRespected, Acyclic, Keys, ReqGraph, FirstFault, Index, Kahn.Order, Topological, Closed, SortedRoutes, LeftOut;
    ResolvesIff(routes);
    ReqGraphNodes(routes);
    Kahn.OrderTopological(ReqGraph(routes));
    ReqGraphClosed(routes);
    Kahn.OrderCompleteIff(ReqGraph(routes));
  }

  lemma SortedPosition(routes: seq<Route>, r: Route) returns (i: nat)
    requires Resolve(routes).Success? && r in routes
    ensures i < |SortedRoutes(routes)| && SortedRoutes(routes)[i] == r
    ensures i < |Kahn.Order(ReqGraph(routes))| && Kahn.Order(ReqGraph(routes))[i] == r.Key()
  {
    hide AllPresent, TrustRespected, Acyclic, ReqGraph, FirstFault, Index, Kahn.Order, Topological, SortedRoutes, LeftOut, DistinctRefs, Route.Key;
    var order, keys := SortedRoutes(routes), Kahn.Order(ReqGraph(routes));
    ResolvesIff(routes);
    SortsEveryKey(routes);
    SortedRoutesKeys(routes);
    assert r.Key() in Elems(keys);
    i :| 0 <= i < |keys| && keys[i] == r.Key();
    assert KeySeq(order)[i] == r.Key();
    UniqueByKey(routes, r, order[i]);
  }

  lemma SortedDistinct(routes: seq<Route>)
    requires Resolve(routes).Success?
    ensures DistinctRefs(routes) && DistinctRefs(SortedRoutes(routes))
  {
    hide AllPresent, TrustRespected, Acyclic, ReqGraph, FirstFault, Index, Kahn.Order, SortedRoutes, LeftOut, KeySeq;
    ResolvesIff(routes);
    SortsEveryKey(routes);
    SortedRoutesKeys(routes);
  }

  lemma SortedIsPermutation(routes: seq<Route>)
    requires Resolve(routes).Success?
    ensures multiset(SortedRoutes(routes)) == multiset(routes)
  {
    hide DistinctRefs, AllPresent, TrustRespected, Acyclic, ReqGraph, FirstFault, Index, Kahn.Order, SortedRoutes, LeftOut;
    var order := SortedRoutes(routes);
    SortedRoutesKeys(routes);
    forall r | r in routes ensures r in order { var i := SortedPosition(routes, r); }
    assert Elems(order) == Elems(routes);
    SortedDistinct(routes);
    KeysDistinctSoRoutesDistinct(order);
    KeysDistinctSoRoutesDistinct(routes);
    SameElements(order, routes);
  }

  lemma RequirementIsEdge(routes: seq<Route>, r: Route, d: RouteRef)
    requires r in routes && d in r.requirements
    ensures r.Key() in ReqGraph(routes) && d.String() in ReqGraph(routes)[r.Key()]
  {
    hide Route.Key, RouteRef.String;
  }

  lemma ResolvedOrderIsValid(routes: seq<Route>)
    requires Resolve(routes).Success?
    ensures ValidOrder(routes, Resolve(routes).value)
  {
    hide DistinctRefs, AllPresent, TrustRespected, Acyclic, ReqGraph, FirstFault, Index, Kahn.Order, SortedRoutes, LeftOut, Route.Key, RouteRef.String;
    var order, keys := Resolve(routes).value, Kahn.Order(ReqGraph(routes));
    SortedIsPermutation(routes);
    SortsEveryKey(routes);
    SortedRoutesKeys(routes);
    forall i, d | 0 <= i < |order| && d in order[i].requirements ensures d.String() in KeySeq(order[..i]) {
      assert keys[i] == KeySeq(order)[i] == order[i].Key();
      RequirementIsEdge(routes, order[i], d);
      assert d.String() in Elems(keys[..i]);
      assert KeySeq(order[..i]) == keys[..i];
    }
  }

  lemma KeysDistinctSoRoutesDistinct(routes: seq<Route>)
    requires DistinctRefs(routes)
    ensures Distinct(routes)
  {
    forall i, j | 0 <= i < j < |routes| ensures routes[i] != routes[j] {
      assert KeySeq(routes)[i] != KeySeq(routes)[j];
    }
  }

  // ----- cycle reports -----

  /** The reported list holds, in ascending order, exactly the keys that require their way to a cycle. */
  lemma CycleReportExact(routes: seq<Route>)
    requires Resolve(routes).Failure? && Resolve(routes).error.CycleDetected?
    ensures var cycle := Resolve(routes).error.cycle;
            && Ascending(cycle)
            && (forall k :: k in cycle <==> k in Keys(routes) && ReachesCycle(ReqGraph(routes), k))
            && (cycle == [] <==> Acyclic(ReqGraph(routes)))
            && (DistinctRefs(routes) ==> cycle != [])
  {
    hide DistinctRefs, AllPresent, TrustRespected, ReqGraph, Keys, FirstFault, Index, Kahn.Order, SortedRoutes, Route.Key, RouteRef.String, ReachesCycle, Closed, Ascending, Acyclic;
    var g, cycle := ReqGraph(routes), Resolve(routes).error.cycle;
    FirstFaultNone(routes, Index(routes));
    NoFaultIff(routes);
    ReqGraphClosed(routes);
    ReqGraphNodes(routes);
    SortedOfExact(LeftOut(routes));
    forall k ensures k in cycle <==> k in Keys(routes) && ReachesCycle(g, k) {
      if k in g { Kahn.LeftOutReachesCycle(g, k); }
    }
    ResolvesIff(routes);
    CyclicHasMember(g);
    if cycle != [] { assert cycle[0] in cycle; }
  }

  lemma CyclicHasMember(g: Graph)
    ensures !Acyclic(g) <==> exists z :: z in g && ReachesCycle(g, z)
  {
    if !Acyclic(g) {
      var z :| Reaches(g, z, z);
      var _ := ReachesUnfold(g, z, z);
      assert ReachesCycle(g, z);
    }
  }

  /** Two routes under one key are reported as a cycle among nothing. */
  lemma DuplicateReportsEmptyCycle(r: Route)
    requires r.requirements == []
    ensures Resolve([r, r]) == Failure(CycleDetected([]))
  {
    hide DistinctRefs, AllPresent, TrustRespected, ReqGraph, FirstFault, Index, Kahn.Order, SortedRoutes, Route.Key, RouteRef.String, LeftOut;
    var routes := [r, r];
    FirstFaultNone(routes, Index(routes));
    assert !DistinctRefs(routes) by { TwiceNotDistinct(r); }
    ResolvesIff(routes);
    NoRequirementsAcyclic(routes);
    CycleReportExact(routes);
  }

  lemma TwiceNotDistinct(r: Route)
    ensures !DistinctRefs([r, r])
  {
    assert KeySeq([r, r])[0] == KeySeq([r, r])[1];
  }

  lemma NoRequirementsAcyclic(routes: seq<Route>)
    requires forall r :: r in routes ==> r.requirements == []
    ensures Acyclic(ReqGraph(routes))
  {
    hide Route.Key, RouteRef.String;
    forall a ensures !Reaches(ReqGraph(routes), a, a) {
      if Reaches(ReqGraph(routes), a, a) { var _ := ReachesUnfold(ReqGraph(routes), a, a); }
    }
  }

  // ----- determinism -----

  /** The outcome, unless it is a fault, does not depend on the order in which the routes are listed. */
  lemma ResolveDeterministic(routes: seq<Route>, routes': seq<Route>)
    requires multiset(routes) == multiset(routes')
    ensures DistinctRefs(routes) ==>
              (FirstFault(routes, Index(routes)).Some? <==> FirstFault(routes', Index(routes')).Some?)
    ensures (FirstFault(routes, Index(routes)).None? && FirstFault(routes', Index(routes')).None?) ==>
              Resolve(routes) == Resolve(routes')
  {
    hide DistinctRefs, AllPresent, TrustRespected, Acyclic, ReqGraph, FirstFault, Index, Kahn.Order, Route.Key, RouteRef.String;
    assert |routes| == |multiset(routes)| == |routes'|;
    assert forall r :: r in routes <==> r in multiset(routes);
    assert forall r :: r in routes' <==> r in multiset(routes');
    SameMembers(routes, routes');
    NoFaultIff(routes);
    NoFaultIff(routes');
    DistinctIffCount(routes);
    DistinctIffCount(routes');
    ResolvesIff(routes);
    if DistinctRefs(routes) { SameIndex(routes, routes'); }
  }

  lemma SameMembers(routes: seq<Route>, routes': seq<Route>)
    requires forall r :: r in routes <==> r in routes'
    ensures Keys(routes) == Keys(routes') && ReqGraph(routes) == ReqGraph(routes')
    ensures AllPresent(routes) <==> AllPresent(routes')
    ensures TrustRespected(routes) <==> TrustRespected(routes')
  {
    hide Route.Key, RouteRef.String;
    assert Keys(routes) == Keys(routes');
    forall k ensures RequirementsOf(routes, k) == RequirementsOf(routes', k) {}
  }

  lemma SameIndex(routes: seq<Route>, routes': seq<Route>)
    requires DistinctRefs(routes) && DistinctRefs(routes') && forall r :: r in routes <==> r in routes'
    ensures Index(routes) == Index(routes')
  {
    IndexKeys(routes);
    IndexKeys(routes');
    forall k | k in Index(routes) ensures k in Index(routes') && Index(routes)[k] == Index(routes')[k] {
      IndexFinds(routes', Index(routes)[k]);
    }
    forall k | k in Index(routes') ensures k in Index(routes) {
      IndexFinds(routes, Index(routes')[k]);
    }
  }

  // ----- removing a route -----

  /** Some listed route requires `k`; a route's requirement on itself counts. */
  ghost predicate HasDependent(routes: seq<Route>, k: string) {
    exists r, d :: r in routes && d in r.requirements && d.String() == k
  }

  lemma WithoutGraph(routes: seq<Route>, r: Route)
    requires DistinctRefs(routes) && r in routes && !HasDependent(routes, r.Key())
    ensures ReqGraph(Without(routes, r)) == Kahn.DeleteNode(ReqGraph(routes), r.Key())
    ensures Kahn.Unrequired(ReqGraph(routes), r.Key())
  {
    var rest := Without(routes, r);
    forall p | p in routes && p != r ensures p.Key() != r.Key() {
      if p.Key() == r.Key() { UniqueByKey(routes, p, r); }
    }
    assert Keys(rest) == Keys(routes) - {r.Key()};
    forall k | k in Keys(rest) ensures RequirementsOf(rest, k) == RequirementsOf(routes, k) {}
  }

  lemma {:induction false} WithoutKeys(routes: seq<Route>, r: Route)
    requires r in routes ==> forall p :: p in routes && p.Key() == r.Key() ==> p == r
    ensures r in routes ==> KeySeq(Without(routes, r)) == Without(KeySeq(routes), r.Key())
    ensures r !in routes ==> Without(routes, r) == routes
  {
    if r !in routes {
      WithoutAbsent(routes, r);
    } else {
      hide Route.Key, KeySeq;
      var h, t := routes[0], routes[1..];
      assert routes == [h] + t;
      WithoutKeys(t, r);
      if r !in t { WithoutLast(routes, r); }
      assert h == r <==> h.Key() == r.Key();
      KeySeqCons(h, t);
      KeySeqCons(h, Without(t, r));
      WithoutCons(h, t, r);
      WithoutCons(h.Key(), KeySeq(t), r.Key());
    }
  }

  lemma KeySeqCons(h: Route, t: seq<Route>)
    ensures KeySeq([h] + t) == [h.Key()] + KeySeq(t)
  {
    hide Route.Key;
  }

  lemma WithoutCons<T(!new)>(h: T, t: seq<T>, x: T)
    ensures Without([h] + t, x) == if h == x then Without(t, x) else [h] + Without(t, x)
  {
    assert ([h] + t)[1..] == t;
  }

  lemma WithoutLast(routes: seq<Route>, r: Route)
    requires routes != [] && r !in routes[1..] && forall p :: p in routes && p.Key() == r.Key() ==> p == r
    ensures Without(KeySeq(routes[1..]), r.Key()) == KeySeq(routes[1..])
  {
    var t := routes[1..];
    forall k | k in KeySeq(t) ensures k != r.Key() {
      var i :| 0 <= i < |t| && t[i].Key() == k;
      assert t[i] in routes;
    }
    WithoutAbsent(KeySeq(t), r.Key());
  }

  lemma WithoutDistinct(routes: seq<Route>, r: Route)
    requires DistinctRefs(routes) && r in routes
    ensures DistinctRefs(Without(routes, r)) && |Without(routes, r)| == |routes| - 1
    ensures Keys(Without(routes, r)) == Keys(routes) - {r.Key()}
  {
    forall p | p in routes && p.Key() == r.Key() ensures p == r { UniqueByKey(routes, p, r); }
    WithoutKeys(routes, r);
    WithoutOnce(KeySeq(routes), r.Key());
    KeySeqElems(routes);
    KeySeqElems(Without(routes, r));
    assert r.Key() in Keys(routes);
    assert r.Key() in KeySeq(routes);
  }

  lemma {:induction false} WithoutOnce(s: seq<string>, x: string)
    requires Distinct(s)
    ensures Distinct(Without(s, x)) && |Without(s, x)| == if x in s then |s| - 1 else |s|
  {
    if s != [] {
      WithoutOnce(s[1..], x);
      assert s == [s[0]] + s[1..];
      var w := Without(s[1..], x);
      assert s[0] !in s[1..];
      Kahn.DistinctConcat([s[0]], w);
    }
  }

  /** Resolved routes that require nothing come in byte order of their keys. */
  lemma FreeRoutesAscend(routes: seq<Route>, i: nat, j: nat)
    requires Resolve(routes).Success? && i < j < |Resolve(routes).value|
    requires Resolve(routes).value[i].requirements == [] && Resolve(routes).value[j].requirements == []
    ensures Earlier(Resolve(routes).value[i].Key(), Resolve(routes).value[j].Key())
  {
    hide Kahn.Order, Earlier, Resolve, SortedRoutes, RouteRef.String, Route.Key, DistinctRefs, FirstFault, Index;
    var o, g := Resolve(routes).value, ReqGraph(routes);
    ResolvedOrderIsValid(routes);
    ResolvesIff(routes);
    assert KeySeq(o) == Kahn.Order(g) by { ResolvedKeySeq(routes); }
    assert KeySeq(o)[i] == o[i].Key() && KeySeq(o)[j] == o[j].Key();
    assert forall r :: r in o <==> r in multiset(o);
    assert forall r :: r in routes <==> r in multiset(routes);
    assert o[i] in o && o[j] in o;
    RequiresNothing(routes, o[i]);
    RequiresNothing(routes, o[j]);
    Kahn.OrderTies(g, i, j);
  }

  lemma ResolvedKeySeq(routes: seq<Route>)
    requires Resolve(routes).Success?
    ensures KeySeq(Resolve(routes).value) == Kahn.Order(ReqGraph(routes))
  {
    hide Kahn.Order, SortedRoutes, FirstFault, Index;
    SortedRoutesKeys(routes);
  }

  lemma RequiresNothing(routes: seq<Route>, r: Route)
    requires DistinctRefs(routes) && r in routes && r.requirements == []
    ensures RequirementsOf(routes, r.Key()) == {}
  {
    hide RouteRef.String, Route.Key, DistinctRefs;
    forall q | q in routes && q.Key() == r.Key() ensures q == r { UniqueByKey(routes, q, r); }
  }

  /**
   Removing a route that nothing requires deletes it from the outcome and changes nothing else:
   the new order, or the new cycle report, is the old one without that route.
   */
  lemma RemoveUnrequired(routes: seq<Route>, r: Route)
    requires DistinctRefs(routes) && r in routes && !HasDependent(routes, r.Key())
    requires FirstFault(routes, Index(routes)).None?
    ensures Resolve(routes).Success? ==>
              Resolve(Without(routes, r)) == Success(Without(Resolve(routes).value, r))
    ensures Resolve(routes).Failure? ==>
              Resolve(Without(routes, r)) == Failure(CycleDetected(Without(Resolve(routes).error.cycle, r.Key())))
  {
    hide DistinctRefs, AllPresent, TrustRespected, Acyclic, ReqGraph, Keys, FirstFault, Index, Kahn.Order, SortedRoutes, HasDependent, Route.Key, RouteRef.String, Without, Kahn.DeleteNode, Kahn.Unrequired, Topological;
    var rest, g := Without(routes, r), ReqGraph(routes);
    WithoutGraph(routes, r);
    WithoutDistinct(routes, r);
    WithoutPresent(routes, r);
    ResolvesIff(routes);
    ResolvesIff(rest);
    NoFaultIff(routes);
    NoFaultIff(rest);
    if Resolve(routes).Success? {
      DeletedStaysAcyclic(g, r.Key());
      RemovedOrder(routes, r);
    } else {
      DeletedStaysCyclic(g, r.Key());
      LeftOutWithout(routes, r);
      SortedOfMinus(LeftOut(routes), r.Key());
    }
  }

  lemma WithoutPresent(routes: seq<Route>, r: Route)
    requires DistinctRefs(routes) && r in routes && !HasDependent(routes, r.Key())
    requires FirstFault(routes, Index(routes)).None?
    ensures AllPresent(Without(routes, r)) && TrustRespected(Without(routes, r))
  {
    hide DistinctRefs, FirstFault, Index, Route.Key, RouteRef.String, Keys;
    var rest := Without(routes, r);
    NoFaultIff(routes);
    WithoutDistinct(routes, r);
    forall p, d | p in rest && d in p.requirements ensures d.String() in Keys(rest) {
      assert d.String() in Keys(routes);
    }
  }

  lemma LeftOutWithout(routes: seq<Route>, r: Route)
    requires DistinctRefs(routes) && r in routes && !HasDependent(routes, r.Key())
    ensures LeftOut(Without(routes, r)) == LeftOut(routes) - {r.Key()}
  {
    hide DistinctRefs, ReqGraph, Keys, HasDependent, Route.Key, Kahn.Order, Kahn.Unrequired, Kahn.DeleteNode;
    WithoutGraph(routes, r);
    Kahn.OrderWithout(ReqGraph(routes), r.Key());
    WithoutDistinct(routes, r);
  }

  lemma PathKept(g: Graph, k: string, p: seq<string>)
    requires IsPath(g, p) && Kahn.Unrequired(g, k) && p[0] != k
    ensures IsPath(Kahn.DeleteNode(g, k), p)
  {
    forall i | 0 <= i < |p| ensures p[i] != k {
      if i > 0 { assert p[i - 1] in g && p[i - 1 + 1] in g[p[i - 1]]; }
    }
  }

  lemma DeletedStaysCyclic(g: Graph, k: string)
    requires Kahn.Unrequired(g, k) && !Acyclic(g)
    ensures !Acyclic(Kahn.DeleteNode(g, k))
  {
    var z :| Reaches(g, z, z);
    var p :| Connects(g, p, z, z);
    var n := |p| - 2;
    assert p[n] in g && p[n + 1] in g[p[n]];
    PathKept(g, k, p);
    assert Connects(Kahn.DeleteNode(g, k), p, z, z);
    assert Reaches(Kahn.DeleteNode(g, k), z, z);
  }

  lemma DeletedStaysAcyclic(g: Graph, k: string)
    requires Acyclic(g)
    ensures Acyclic(Kahn.DeleteNode(g, k))
  {
    var h := Kahn.DeleteNode(g, k);
    forall z ensures !Reaches(h, z, z) {
      if Reaches(h, z, z) {
        var p :| Connects(h, p, z, z);
        assert forall i :: 0 <= i < |p| - 1 ==> p[i] in h && p[i + 1] in h[p[i]];
        assert Connects(g, p, z, z);
        assert Reaches(g, z, z);
      }
    }
  }

  lemma RemovedOrder(routes: seq<Route>, r: Route)
    requires DistinctRefs(routes) && r in routes && !HasDependent(routes, r.Key())
    requires Resolve(routes).Success?
    ensures SortedRoutes(Without(routes, r)) == Without(SortedRoutes(routes), r)
  {
    var rest, a, b := Without(routes, r), SortedRoutes(routes), SortedRoutes(Without(routes, r));
    WithoutGraph(routes, r);
    Kahn.OrderWithout(ReqGraph(routes), r.Key());
    SortedRoutesKeys(routes);
    SortedRoutesKeys(rest);
    forall p | p in a && p.Key() == r.Key() ensures p == r { UniqueByKey(routes, p, r); }
    ResolvedOrderIsValid(routes);
    assert r in multiset(routes);
    assert r in a;
    WithoutKeys(a, r);
    SameKeysSameRoutes(routes, b, Without(a, r));
  }

  lemma SameKeysSameRoutes(routes: seq<Route>, a: seq<Route>, b: seq<Route>)
    requires DistinctRefs(routes) && KeySeq(a) == KeySeq(b)
    requires forall r :: r in a || r in b ==> r in routes
    ensures a == b
  {
    assert |a| == |KeySeq(a)| == |b|;
    forall i | 0 <= i < |a| ensures a[i] == b[i] {
      assert KeySeq(a)[i] == KeySeq(b)[i];
      UniqueByKey(routes, a[i], b[i]);
    }
  }

  /** Removing a route that another one requires makes the rest unresolvable. */
  lemma RemoveRequired(routes: seq<Route>, r: Route)
    requires DistinctRefs(routes) && r in routes && HasDependent(Without(routes, r), r.Key())
    ensures Resolve(Without(routes, r)).Failure? && Resolve(Without(routes, r)).error.Fault()
  {
    var rest := Without(routes, r);
    var p, d :| p in rest && d in p.requirements && d.String() == r.Key();
    WithoutDistinct(routes, r);
    NoFaultIff(rest);
    FirstFaultNone(rest, Index(rest));
    assert r.Key() !in Keys(rest);
  }

  // ----- trust and position along chains -----

  /** In a resolved registry everything reached from a route is trusted at least as much, and comes before it. */
  lemma ChainsRespectTrustAndOrder(routes: seq<Route>, a: Route, b: Route)
    requires Resolve(routes).Success? && a in routes && b in routes
    requires Reaches(ReqGraph(routes), a.Key(), b.Key())
    ensures b.trustLevel <= a.trustLevel
    ensures exists i, j :: 0 <= j < i < |Resolve(routes).value| && Resolve(routes).value[i] == a && Resolve(routes).value[j] == b
  {
    hide DistinctRefs, AllPresent, TrustRespected, Acyclic, ReqGraph, Keys, FirstFault, Index, Kahn.Order, SortedRoutes, Route.Key, Topological;
    var g := ReqGraph(routes);
    ResolvesIff(routes);
    var p :| Connects(g, p, a.Key(), b.Key());
    TrustAlongPath(routes, p, a, b);
    SortsEveryKey(routes);
    var i := SortedPosition(routes, a);
    var j := SortedPosition(routes, b);
    var k := PathRunsBackwards(g, Kahn.Order(g), p, i);
    SamePosition(g, j, k);
    assert Resolve(routes).value[i] == a && Resolve(routes).value[j] == b;
  }

  lemma SamePosition(g: Graph, j: nat, k: nat)
    requires Topological(g, Kahn.Order(g)) && j < |Kahn.Order(g)| && k < |Kahn.Order(g)|
    requires Kahn.Order(g)[j] == Kahn.Order(g)[k]
    ensures j == k
  {}

  lemma {:induction false} TrustAlongPath(routes: seq<Route>, p: seq<string>, a: Route, b: Route)
    requires DistinctRefs(routes) && AllPresent(routes) && TrustRespected(routes)
    requires a in routes && b in routes
    requires IsPath(ReqGraph(routes), p) && p[0] == a.Key() && p[|p| - 1] == b.Key()
    ensures b.trustLevel <= a.trustLevel
    decreases |p|
  {
    hide DistinctRefs, Route.Key, RouteRef.String, AllPresent, TrustRespected, ReqGraph;
    if |p| == 1 {
      UniqueByKey(routes, a, b);
    } else {
      assert p[0] in ReqGraph(routes) && p[0 + 1] in ReqGraph(routes)[p[0]];
      var c := NextRoute(routes, a, p[1]);
      TrustAlongPath(routes, p[1..], c, b);
    }
  }

  lemma NextRoute(routes: seq<Route>, a: Route, k: string) returns (c: Route)
    requires DistinctRefs(routes) && AllPresent(routes) && TrustRespected(routes) && a in routes
    requires a.Key() in ReqGraph(routes) && k in ReqGraph(routes)[a.Key()]
    ensures c in routes && c.Key() == k && c.trustLevel <= a.trustLevel
  {
    hide DistinctRefs, Route.Key, RouteRef.String;
    var r, d :| r in routes && r.Key() == a.Key() && d in r.requirements && d.String() == k;
    UniqueByKey(routes, r, a);
    assert k in Keys(routes);
    c :| c in routes && c.Key() == k;
  }
}

/** The cross-type topological sort over routes: `ResolveOrder`. */
module Resolver {
  import opened Wrappers
  import opened Lexical
  import opened Graph
  import opened Routes
  import Kahn

  datatype ResolveError =
    | DependencyNotFound(route: RouteRef, dep: string)
    | TrustViolation(route: RouteRef, dep: string)
    | CycleDetected(cycle: seq<string>)
  {
    predicate Fault() { !CycleDetected? }
  }

  // ----- the graph of a list of routes -----

  ghost function Keys(routes: seq<Route>): set<string> {
    set r | r in routes :: r.Key()
  }

  ghost function RequirementsOf(routes: seq<Route>, k: string): set<string> {
    set r, d | r in routes && r.Key() == k && d in r.requirements :: d.String()
  }

  ghost function ReqGraph(routes: seq<Route>): Graph {
    map k | k in Keys(routes) :: RequirementsOf(routes, k)
  }

  lemma ReqGraphNodes(routes: seq<Route>)
    ensures ReqGraph(routes).Keys == Keys(routes) && |ReqGraph(routes)| == |Keys(routes)|
  {
    assert |ReqGraph(routes).Keys| == |ReqGraph(routes)|;
  }

  /** The same graph with repeated requirements kept apart. */
  function MultiDeps(routes: seq<Route>): Kahn.Multigraph {
    if routes == [] then map[] else
      AddRoute(MultiDeps(routes[..|routes| - 1]), routes[|routes| - 1], |routes[|routes| - 1].requirements|)
  }

  /** `deps` after the first `n` requirements of `r` have been recorded. */
  function AddRoute(deps: Kahn.Multigraph, r: Route, n: nat): Kahn.Multigraph
    requires n <= |r.requirements|
  {
    deps[r.Key() := Kahn.Adjacent(deps, r.Key()) + r.DepKeys()[..n]]
  }

  lemma {:induction false} MultiDepsElems(routes: seq<Route>, k: string)
    ensures k in MultiDeps(routes) <==> k in Keys(routes)
    ensures Elems(Kahn.Adjacent(MultiDeps(routes), k)) == RequirementsOf(routes, k)
  {
    if routes != [] {
      var front, r := routes[..|routes| - 1], routes[|routes| - 1];
      MultiDepsElems(front, k);
      assert routes == front + [r];
      assert Keys(routes) == Keys(front) + {r.Key()};
      AppendRequirements(front, r, k);
      assert r.DepKeys()[..|r.requirements|] == r.DepKeys();
    }
  }

  lemma SimpleIsReqGraph(routes: seq<Route>)
    ensures Kahn.Simple(MultiDeps(routes)) == ReqGraph(routes)
  {
    forall k { MultiDepsElems(routes, k); }
    assert MultiDeps(routes).Keys == Keys(routes);
    forall k | k in Keys(routes) ensures Kahn.Simple(MultiDeps(routes))[k] == ReqGraph(routes)[k] {}
  }

  lemma AppendRequirements(front: seq<Route>, r: Route, k: string)
    ensures RequirementsOf(front + [r], k)
            == RequirementsOf(front, k) + (if r.Key() == k then Elems(r.DepKeys()) else {})
  {
    var all := front + [r];
    forall d | d in Elems(r.DepKeys()) ensures exists q :: q in r.requirements && q.String() == d {
      var i :| 0 <= i < |r.DepKeys()| && r.DepKeys()[i] == d;
      assert r.requirements[i].String() == d;
    }
    forall q | q in r.requirements ensures q.String() in Elems(r.DepKeys()) {
      var i :| 0 <= i < |r.requirements| && r.requirements[i] == q;
      assert r.DepKeys()[i] == q.String();
    }
    assert forall x :: x in all <==> x in front || x == r;
  }

  /** The route filed under each key; a later route replaces an earlier one. */
  function Index(routes: seq<Route>): map<string, Route> {
    if routes == [] then map[] else
      var r := routes[|routes| - 1];
      Index(routes[..|routes| - 1])[r.Key() := r]
  }

  lemma {:induction false} IndexKeys(routes: seq<Route>)
    ensures Index(routes).Keys == Keys(routes)
    ensures forall k :: k in Index(routes) ==> Index(routes)[k] in routes && Index(routes)[k].Key() == k
  {
    if routes != [] {
      IndexKeys(routes[..|routes| - 1]);
      assert routes == routes[..|routes| - 1] + [routes[|routes| - 1]];
    }
  }

  // ----- what ResolveOrder returns -----

  /** The first faulty one among the first `n` requirements of a route. */
  function RouteFault(r: Route, n: nat, index: map<string, Route>): Option<ResolveError>
    requires n <= |r.requirements|
  {
    if n == 0 then None else
      var earlier := RouteFault(r, n - 1, index);
      var dep := r.requirements[n - 1].String();
      if earlier.Some? then earlier
      else if dep !in index then Some(DependencyNotFound(r.Ref(), dep))
      else if !TrustAllows(r.trustLevel, index[dep].trustLevel) then Some(TrustViolation(r.Ref(), dep))
      else None
  }

  /** The first faulty requirement of a list of routes, route by route. */
  function FirstFault(routes: seq<Route>, index: map<string, Route>): Option<ResolveError> {
    if routes == [] then None else
      var earlier := FirstFault(routes[..|routes| - 1], index);
      var r := routes[|routes| - 1];
      if earlier.Some? then earlier else RouteFault(r, |r.requirements|, index)
  }

  lemma RoutesAt(routes: seq<Route>, order: seq<string>)
    requires Elems(order) <= Keys(routes)
    ensures forall i :: 0 <= i < |order| ==> order[i] in Index(routes)
  {
    IndexKeys(routes);
    forall i | 0 <= i < |order| ensures order[i] in Index(routes) {
      assert order[i] in Elems(order);
    }
  }

  ghost function LeftOut(routes: seq<Route>): set<string> {
    Keys(routes) - Elems(Kahn.Order(ReqGraph(routes)))
  }

  /** The keys of `order` mapped back to routes. */
  ghost function RoutesFor(order: seq<string>, index: map<string, Route>): (r: seq<Route>)
    requires forall i :: 0 <= i < |order| ==> order[i] in index
    ensures |r| == |order| && forall i :: 0 <= i < |order| ==> r[i] == index[order[i]]
  {
    seq(|order|, i requires 0 <= i < |order| => index[order[i]])
  }

  ghost function SortedRoutes(routes: seq<Route>): seq<Route> {
    Kahn.OrderTopological(ReqGraph(routes));
    RoutesAt(routes, Kahn.Order(ReqGraph(routes)));
    RoutesFor(Kahn.Order(ReqGraph(routes)), Index(routes))
  }

  ghost function Resolve(routes: seq<Route>): Result<seq<Route>, ResolveError> {
    var fault := FirstFault(routes, Index(routes));
    if fault.Some? then Failure(fault.value)
    else if |Kahn.Order(ReqGraph(routes))| != |routes| then Failure(CycleDetected(SortedOf(LeftOut(routes))))
    else Success(SortedRoutes(routes))
  }

  // ----- the method -----

  lemma RecordOne(graph: Kahn.Multigraph, inDegree: map<string, int>, base: Kahn.Multigraph, r: Route, j: nat)
    requires j < |r.requirements| && Kahn.Records(graph, inDegree, AddRoute(base, r, j))
    ensures var dep := r.requirements[j].String();
            r.Key() in inDegree &&
            Kahn.Records(graph[dep := Kahn.Adjacent(graph, dep) + [r.Key()]],
                    inDegree[r.Key() := inDegree[r.Key()] + 1], AddRoute(base, r, j + 1))
  {
    var deps, dep := AddRoute(base, r, j), r.requirements[j].String();
    Kahn.RecordEdge(graph, inDegree, deps, r.Key(), dep);
    assert r.DepKeys()[..j + 1] == r.DepKeys()[..j] + [dep];
    var old' := Kahn.Adjacent(base, r.Key());
    assert (old' + r.DepKeys()[..j]) + [dep] == old' + r.DepKeys()[..j + 1];
    assert deps[r.Key() := Kahn.Adjacent(deps, r.Key()) + [dep]] == AddRoute(base, r, j + 1);
  }

  lemma RecordNone(graph: Kahn.Multigraph, inDegree: map<string, int>, base: Kahn.Multigraph, r: Route)
    requires Kahn.Records(graph, inDegree, base)
    ensures Kahn.Records(graph, if r.Key() in inDegree then inDegree else inDegree[r.Key() := 0], AddRoute(base, r, 0))
  {
    Kahn.RecordNode(graph, inDegree, base, r.Key());
    assert r.DepKeys()[..0] == [];
    var known := Kahn.Adjacent(base, r.Key());
    assert known + r.DepKeys()[..0] == known;
  }

  lemma {:induction false} FaultComesFirst(routes: seq<Route>, i: nat, j: nat, index: map<string, Route>)
    requires i < |routes| && FirstFault(routes[..i], index).None?
    requires j < |routes[i].requirements| && RouteFault(routes[i], j + 1, index).Some?
    ensures FirstFault(routes, index) == RouteFault(routes[i], j + 1, index)
    decreases |routes|
  {
    var n := |routes|;
    if i < n - 1 {
      assert routes[..n - 1][..i] == routes[..i];
      FaultComesFirst(routes[..n - 1], i, j, index);
    } else {
      FaultStays(routes[i], j + 1, |routes[i].requirements|, index);
    }
  }

  lemma {:induction false} FaultStays(r: Route, m: nat, n: nat, index: map<string, Route>)
    requires m <= n <= |r.requirements| && RouteFault(r, m, index).Some?
    ensures RouteFault(r, n, index) == RouteFault(r, m, index)
    decreases n
  {
    if m < n { FaultStays(r, m, n - 1, index); }
  }

  method BuildIndex(routes: seq<Route>) returns (index: map<string, Route>)
    ensures index == Index(routes)
  {
    index := map[];
    for i := 0 to |routes|
      invariant index == Index(routes[..i])
    {
      assert routes[..i + 1][..i] == routes[..i];
      index := index[routes[i].Key() := routes[i]];
    }
    assert routes[..|routes|] == routes;
  }

  /** The scan that checks every requirement while it fills the adjacency and degree maps. */
  method BuildGraph(routes: seq<Route>, index: map<string, Route>)
    returns (fault: Option<ResolveError>, graph: Kahn.Multigraph, inDegree: map<string, int>)
    ensures fault == FirstFault(routes, index)
    ensures fault.None? ==> Kahn.Records(graph, inDegree, MultiDeps(routes))
  {
    hide Kahn.Records, AddRoute, MultiDeps, RouteFault, FirstFault, TrustAllows, Route.Key, Route.Ref, RouteRef.String;
    graph, inDegree := map[], map[];
    NothingScanned(index);
    for i := 0 to |routes|
      invariant Kahn.Records(graph, inDegree, MultiDeps(routes[..i]))
      invariant FirstFault(routes[..i], index).None?
    {
      var r := routes[i];
      var key := r.Key();
      ghost var base := MultiDeps(routes[..i]);
      RecordNone(graph, inDegree, base, r);
      if key !in inDegree {
        inDegree := inDegree[key := 0];
      }
      NothingRead(r, index);
      for j := 0 to |r.requirements|
        invariant Kahn.Records(graph, inDegree, AddRoute(base, r, j))
        invariant RouteFault(r, j, index).None?
      {
        var depKey := r.requirements[j].String();
        ReadOne(r, j, index);
        if depKey !in index {
          fault := Some(DependencyNotFound(r.Ref(), depKey));
          FaultComesFirst(routes, i, j, index);
          return;
        }
        if !TrustAllows(r.trustLevel, index[depKey].trustLevel) {
          fault := Some(TrustViolation(r.Ref(), depKey));
          FaultComesFirst(routes, i, j, index);
          return;
        }
        RecordOne(graph, inDegree, base, r, j);
        graph := graph[depKey := Kahn.Adjacent(graph, depKey) + [key]];
        inDegree := inDegree[key := inDegree[key] + 1];
      }
      ScannedOne(routes, i, index);
    }
    assert routes[..|routes|] == routes;
    fault := None;
  }

  lemma NothingScanned(index: map<string, Route>)
    ensures Kahn.Records(map[], map[], MultiDeps([])) && FirstFault([], index).None?
  {}

  lemma NothingRead(r: Route, index: map<string, Route>)
    ensures RouteFault(r, 0, index).None?
  {}

  lemma ReadOne(r: Route, j: nat, index: map<string, Route>)
    requires j < |r.requirements| && RouteFault(r, j, index).None?
    ensures var dep := r.requirements[j].String();
            RouteFault(r, j + 1, index) == if dep !in index then Some(DependencyNotFound(r.Ref(), dep))
                                           else if !TrustAllows(r.trustLevel, index[dep].trustLevel)
                                           then Some(TrustViolation(r.Ref(), dep)) else None
  {}

  lemma ScannedOne(routes: seq<Route>, i: nat, index: map<string, Route>)
    requires i < |routes| && FirstFault(routes[..i], index).None?
    requires RouteFault(routes[i], |routes[i].requirements|, index).None?
    ensures FirstFault(routes[..i + 1], index).None?
    ensures MultiDeps(routes[..i + 1]) == AddRoute(MultiDeps(routes[..i]), routes[i], |routes[i].requirements|)
  {
    assert routes[..i + 1][..i] == routes[..i];
  }

  lemma PositiveIsLeftOut(routes: seq<Route>, left: map<string, int>)
    requires left.Keys == MultiDeps(routes).Keys
    requires forall n :: n in left ==> (left[n] > 0 <==> n !in Kahn.Order(Kahn.Simple(MultiDeps(routes))))
    ensures (set n | n in left && left[n] > 0) == LeftOut(routes)
  {
    SimpleIsReqGraph(routes);
    assert Kahn.Simple(MultiDeps(routes)).Keys == Keys(routes);
  }

  /** Maps the sorted keys back to routes. */
  method Follow(routes: seq<Route>, order: seq<string>, index: map<string, Route>) returns (sorted: seq<Route>)
    requires forall i :: 0 <= i < |order| ==> order[i] in index
    ensures |sorted| == |order| && forall i :: 0 <= i < |order| ==> sorted[i] == index[order[i]]
  {
    sorted := [];
    for i := 0 to |order|
      invariant |sorted| == i && forall k :: 0 <= k < i ==> sorted[k] == index[order[k]]
    {
      sorted := sorted + [index[order[i]]];
    }
  }

  lemma ReportsCycle(routes: seq<Route>, cycle: seq<string>)
    requires FirstFault(routes, Index(routes)).None? && |Kahn.Order(ReqGraph(routes))| != |routes|
    requires Distinct(cycle) && Elems(cycle) == LeftOut(routes)
    ensures Resolve(routes) == Failure(CycleDetected(Sort(cycle)))
  {
    SortDistinct(cycle);
  }

  lemma ReportsOrder(routes: seq<Route>, sorted: seq<Route>)
    requires FirstFault(routes, Index(routes)).None? && |Kahn.Order(ReqGraph(routes))| == |routes|
    requires var order := Kahn.Order(ReqGraph(routes));
             && |sorted| == |order|
             && forall i :: 0 <= i < |order| ==> order[i] in Index(routes) && sorted[i] == Index(routes)[order[i]]
    ensures Resolve(routes) == Success(sorted)
  {
    assert sorted == SortedRoutes(routes);
  }

  method ResolveOrder(routes: seq<Route>) returns (result: Result<seq<Route>, ResolveError>)
    ensures result == Resolve(routes)
  {
    hide Kahn.Order, Kahn.Mirrors, ReqGraph, MultiDeps, Index, FirstFault, LeftOut, SortedRoutes, Sort;
    if |routes| == 0 {
      ResolveNothing();
      return Success([]);
    }
    var index := BuildIndex(routes);
    var fault, graph, inDegree := BuildGraph(routes, index);
    if fault.Some? {
      return Failure(fault.value);
    }

    Kahn.RecordsCount(graph, inDegree, MultiDeps(routes));
    var order, left := Kahn.Drain(graph, inDegree, MultiDeps(routes));
    assert order == Kahn.Order(ReqGraph(routes)) by { SimpleIsReqGraph(routes); }

    if |order| != |routes| {
      var cycle := Kahn.ZeroDegree(left, true);
      PositiveIsLeftOut(routes, left);
      ReportsCycle(routes, cycle);
      return Failure(CycleDetected(Sort(cycle)));
    }

    assert Elems(order) <= Keys(routes) by {
      Kahn.OrderTopological(ReqGraph(routes));
      ReqGraphNodes(routes);
    }
    RoutesAt(routes, order);
    var sorted := Follow(routes, order, index);
    ReportsOrder(routes, sorted);
    return Success(sorted);
  }

  lemma ResolveNothing()
    ensures Resolve([]) == Success([])
  {
    assert ReqGraph([]) == map[];
    Kahn.OrderTopological(ReqGraph([]));
    assert Kahn.Order(ReqGraph([])) == [];
    assert SortedRoutes([]) == [];
  }
}

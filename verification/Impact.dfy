/** Breadth-first impact analysis over a plain list of routes: `ComputeImpact`. */
module Impact {
  import opened Lexical
  import opened Graph
  import opened Reachability
  import opened Routes
  import opened Resolver

  datatype RemovalImpact = RemovalImpact(direct: seq<RouteRef>, transitive: seq<RouteRef>, orphaned: seq<RouteRef>)

  function EntriesAt(m: map<string, seq<Route>>, k: string): seq<Route> {
    if k in m then m[k] else []
  }

  /** The provider-to-dependents map of a list of routes. */
  method DependentsByKey(all: seq<Route>) returns (m: map<string, seq<Route>>)
    ensures forall k, r :: r in EntriesAt(m, k) <==> r in all && k in r.DepKeys()
  {
    hide RouteRef.String;
    m := map[];
    for i := 0 to |all|
      invariant forall k, r :: r in EntriesAt(m, k) <==> r in all[..i] && k in r.DepKeys()
    {
      var keys := all[i].DepKeys();
      for j := 0 to |keys|
        invariant forall k, r :: r in EntriesAt(m, k) <==>
                    (r in all[..i] && k in r.DepKeys()) || (r == all[i] && k in keys[..j])
      {
        ghost var before := m;
        m := m[keys[j] := EntriesAt(m, keys[j]) + [all[i]]];
        assert keys[..j + 1] == keys[..j] + [keys[j]];
        forall k, r ensures r in EntriesAt(m, k) <==> r in EntriesAt(before, k) || (k == keys[j] && r == all[i]) {}
      }
      assert keys[..|keys|] == keys;
      assert all[..i + 1] == all[..i] + [all[i]];
    }
    assert all[..|all|] == all;
  }

  /** Some enabled route other than `current` provides one of the requirements of `dep` other than `current`. */
  ghost predicate OtherProvider(dep: Route, current: string, all: seq<Route>) {
    exists q, r :: q in dep.requirements && q.String() != current && r in all && Provides(r, current, q)
  }

  ghost predicate Provides(r: Route, current: string, q: RouteRef) {
    r.Key() != current && r.enabled && q.String() in Strings(r.provided)
  }

  method HasOtherProviders(dep: Route, current: string, all: seq<Route>) returns (found: bool)
    ensures found <==> OtherProvider(dep, current, all)
  {
    hide RouteRef.String;
    found := false;
    for i := 0 to |dep.requirements|
      invariant found <==> exists q, r :: q in dep.requirements[..i] && q.String() != current && r in all && Provides(r, current, q)
    {
      var q := dep.requirements[i];
      assert dep.requirements[..i + 1] == dep.requirements[..i] + [q];
      if q.String() == current { continue; }
      var before := found;
      for j := 0 to |all|
        invariant found <==> before || exists r :: r in all[..j] && Provides(r, current, q)
      {
        assert all[..j + 1] == all[..j] + [all[j]];
        if all[j].Key() != current && all[j].enabled && q.String() in Strings(all[j].provided) {
          assert Provides(all[j], current, q);
          found := true;
        }
      }
      assert all[..|all|] == all;
    }
    assert dep.requirements[..|dep.requirements|] == dep.requirements;
  }

  // ----- the search -----

  /** The order in which the search visits: the start, its dependents, then the rest. */
  function Visiting(start: string, impact: RemovalImpact): seq<string> {
    [start] + Strings(impact.direct) + Strings(impact.transitive)
  }

  /**
   `ref` is listed as orphaned exactly when no other provider remains, seen from the first visited node that it requires.
   */
  ghost predicate Judged(all: seq<Route>, visiting: seq<string>, ref: RouteRef, orphaned: bool) {
    exists dep, k ::
      && 0 <= k < |visiting| && dep in all && dep.Ref() == ref && visiting[k] in dep.DepKeys()
      && (forall m :: 0 <= m < k ==> ref.String() !in Dependents(ReqGraph(all), visiting[m]))
      && (orphaned <==> !OtherProvider(dep, visiting[k], all))
  }

  lemma JudgedLater(all: seq<Route>, visiting: seq<string>, x: string, ref: RouteRef, orphaned: bool)
    requires Judged(all, visiting, ref, orphaned)
    ensures Judged(all, visiting + [x], ref, orphaned)
  {
    hide OtherProvider, Dependents, ReqGraph, RouteRef.String, Route.DepKeys;
    var now := visiting + [x];
    var dep, k :| 0 <= k < |visiting| && dep in all && dep.Ref() == ref && visiting[k] in dep.DepKeys()
                  && (forall m :: 0 <= m < k ==> ref.String() !in Dependents(ReqGraph(all), visiting[m]))
                  && (orphaned <==> !OtherProvider(dep, visiting[k], all));
    assert now[k] == visiting[k] && forall m :: 0 <= m < k ==> now[m] == visiting[m];
  }

  datatype Search = Search(visited: set<string>, queue: seq<string>, impact: RemovalImpact)

  ghost predicate Listed(g: Graph, start: string, s: Search) {
    var affected := Strings(s.impact.direct + s.impact.transitive);
    && start in s.visited && s.visited <= g.Keys + {start}
    && Elems(s.queue) <= s.visited
    && Distinct(affected) && Elems(affected) == s.visited - {start}
  }

  ghost predicate Classified(all: seq<Route>, g: Graph, start: string, s: Search) {
    && (forall x :: x in s.visited && x != start ==> Reaches(g, x, start))
    && (forall x :: x in Strings(s.impact.direct) ==> x in Dependents(g, start))
    && (forall x :: x in Strings(s.impact.transitive) ==> x !in Dependents(g, start))
    && (forall ref :: ref in s.impact.direct || ref in s.impact.transitive ==>
          Judged(all, Visiting(start, s.impact), ref, ref in s.impact.orphaned))
    && (forall ref :: ref in s.impact.orphaned ==> ref in s.impact.direct || ref in s.impact.transitive)
    && Distinct(s.impact.orphaned)
  }

  function Visit(s: Search, ref: RouteRef, direct: bool, orphan: bool): Search {
    var i := s.impact;
    Search(s.visited + {ref.String()}, s.queue + [ref.String()],
           RemovalImpact(if direct then i.direct + [ref] else i.direct,
                         if direct then i.transitive else i.transitive + [ref],
                         if orphan then i.orphaned + [ref] else i.orphaned))
  }

  lemma StringsConcat(a: seq<RouteRef>, b: seq<RouteRef>)
    ensures Strings(a + b) == Strings(a) + Strings(b)
  {}

  lemma StringsMember(a: seq<RouteRef>, ref: RouteRef)
    requires ref in a
    ensures ref.String() in Strings(a)
  {
    var i :| 0 <= i < |a| && a[i] == ref;
    assert Strings(a)[i] == ref.String();
  }

  lemma InsertDistinct(a: seq<string>, b: seq<string>, x: string)
    requires Distinct(a + b) && x !in a && x !in b
    ensures Distinct(a + [x] + b) && Elems(a + [x] + b) == Elems(a + b) + {x}
  {
    var s, t := a + [x] + b, a + b;
    forall i, j | 0 <= i < j < |s| ensures s[i] != s[j] {
      var i', j' := if i < |a| then i else i - 1, if j < |a| then j else j - 1;
      if i == |a| {
        assert s[j] == b[j - |a| - 1] && s[j] in b;
      } else if j == |a| {
        assert s[i] in a;
      } else {
        assert s[i] == t[i'] && s[j] == t[j'];
      }
    }
    assert forall y :: y in t <==> y in a || y in b;
    assert forall y :: y in s <==> y in a || y in b || y == x;
  }

  lemma VisitKeepsListed(g: Graph, start: string, s: Search, ref: RouteRef, direct: bool, orphan: bool)
    requires Listed(g, start, s) && ref.String() !in s.visited && ref.String() in g
    ensures Listed(g, start, Visit(s, ref, direct, orphan))
  {
    hide RouteRef.String;
    var i, x, t := s.impact, ref.String(), Visit(s, ref, direct, orphan);
    StringsConcat(i.direct, i.transitive);
    StringsConcat(t.impact.direct, t.impact.transitive);
    StringsConcat(i.direct, [ref]);
    StringsConcat(i.transitive, [ref]);
    assert Strings([ref]) == [x];
    var a, b := Strings(i.direct), Strings(i.transitive);
    assert forall y :: y in a || y in b ==> y in Elems(a + b);
    if direct {
      InsertDistinct(a, b, x);
    } else {
      InsertDistinct(a + b, [], x);
      assert a + b + [x] + [] == a + (b + [x]);
      assert a + b + [] == a + b;
    }
  }

  lemma VisitingGrows(start: string, s: Search, ref: RouteRef, direct: bool, orphan: bool)
    requires direct ==> s.impact.transitive == []
    ensures Visiting(start, Visit(s, ref, direct, orphan).impact) == Visiting(start, s.impact) + [ref.String()]
  {
    hide RouteRef.String;
    StringsConcat(s.impact.direct, [ref]);
    StringsConcat(s.impact.transitive, [ref]);
    assert Strings([ref]) == [ref.String()] && Strings([]) == [];
  }

  lemma NotOrphanedYet(g: Graph, start: string, s: Search, ref: RouteRef)
    requires Listed(g, start, s) && ref.String() !in s.visited
    ensures ref !in s.impact.direct && ref !in s.impact.transitive
  {
    hide RouteRef.String;
    StringsConcat(s.impact.direct, s.impact.transitive);
    if ref in s.impact.direct { StringsMember(s.impact.direct, ref); }
    if ref in s.impact.transitive { StringsMember(s.impact.transitive, ref); }
    var a := Strings(s.impact.direct + s.impact.transitive);
    assert forall x :: x in Strings(s.impact.direct) || x in Strings(s.impact.transitive) ==> x in Elems(a);
  }

  lemma VisitKeepsClassified(all: seq<Route>, start: string, s: Search, dep: Route, k: nat, orphan: bool)
    requires var g := ReqGraph(all);
             Listed(g, start, s) && Classified(all, g, start, s) && dep.Key() !in s.visited
    requires k < |Visiting(start, s.impact)| && dep in all
    requires var c := Visiting(start, s.impact)[k];
             && c in dep.DepKeys() && (c == start || Reaches(ReqGraph(all), c, start))
             && dep.Key() in Dependents(ReqGraph(all), c) && (orphan <==> !OtherProvider(dep, c, all))
    requires forall m :: 0 <= m < k ==> dep.Key() !in Dependents(ReqGraph(all), Visiting(start, s.impact)[m])
    requires dep.Key() in Dependents(ReqGraph(all), start) ==> s.impact.transitive == []
    ensures Classified(all, ReqGraph(all), start, Visit(s, dep.Ref(), dep.Key() in Dependents(ReqGraph(all), start), orphan))
  {
    hide RouteRef.String, OtherProvider, Dependents, Route.DepKeys, Elems, Distinct, ReqGraph, Reaches, Judged, Visiting, Listed;
    var g, ref, direct := ReqGraph(all), dep.Ref(), dep.Key() in Dependents(ReqGraph(all), start);
    var t, c := Visit(s, ref, direct, orphan), Visiting(start, s.impact)[k];
    StepReaches(g, dep.Key(), c, start);
    VisitingGrows(start, s, ref, direct, orphan);
    NotOrphanedYet(g, start, s, ref);
    OrphanOnce(s.impact.orphaned, ref);
    StringsConcat(s.impact.direct, [ref]);
    StringsConcat(s.impact.transitive, [ref]);
    assert Strings([ref]) == [dep.Key()];
    forall q | q in t.impact.direct || q in t.impact.transitive
      ensures Judged(all, Visiting(start, t.impact), q, q in t.impact.orphaned)
    {
      if q == ref {
        JudgedNow(all, Visiting(start, s.impact), dep, k, orphan);
      } else {
        JudgedLater(all, Visiting(start, s.impact), dep.Key(), q, q in s.impact.orphaned);
      }
    }
  }

  lemma OrphanOnce(orphaned: seq<RouteRef>, ref: RouteRef)
    requires Distinct(orphaned) && ref !in orphaned
    ensures Distinct(orphaned + [ref])
  {}

  lemma JudgedNow(all: seq<Route>, visiting: seq<string>, dep: Route, k: nat, orphan: bool)
    requires k < |visiting| && dep in all && visiting[k] in dep.DepKeys()
    requires forall m :: 0 <= m < k ==> dep.Key() !in Dependents(ReqGraph(all), visiting[m])
    requires orphan <==> !OtherProvider(dep, visiting[k], all)
    ensures Judged(all, visiting + [dep.Key()], dep.Ref(), orphan)
  {
    hide OtherProvider, Dependents, ReqGraph, RouteRef.String, Route.DepKeys;
    var now := visiting + [dep.Key()];
    assert now[k] == visiting[k] && forall m :: 0 <= m < k ==> now[m] == visiting[m];
  }

  lemma StepReaches(g: Graph, x: string, c: string, start: string)
    requires x in Dependents(g, c) && (c == start || Reaches(g, c, start))
    ensures Reaches(g, x, start)
  {
    ReachesEdge(g, x, c);
    if c != start { ReachesTransitive(g, x, c, start); }
  }

  lemma DependentsInList(all: seq<Route>, k: string, x: string)
    ensures x in Dependents(ReqGraph(all), k) <==> exists r :: r in all && r.Key() == x && k in r.DepKeys()
  {
    hide RouteRef.String;
    if x in Dependents(ReqGraph(all), k) {
      var r, d :| r in all && r.Key() == x && d in r.requirements && d.String() == k;
      StringsMember(r.requirements, d);
    }
    if r :| r in all && r.Key() == x && k in r.DepKeys() {
      var i :| 0 <= i < |r.DepKeys()| && r.DepKeys()[i] == k;
      assert r.requirements[i] in r.requirements;
    }
  }

  /** Nodes taken off the queue have had all their dependents visited; `current` only those in `done`. */
  ghost predicate Frontier(g: Graph, s: Search, current: string, done: seq<Route>) {
    && (forall x :: x in s.visited && x !in s.queue && x != current ==> Dependents(g, x) <= s.visited)
    && (forall r :: r in done ==> r.Key() in s.visited)
  }

  /** `processed`, then `current`, then the queue, is the order of visiting; the first node is the start. */
  ghost predicate Lined(start: string, s: Search, processed: seq<string>, current: string) {
    && Visiting(start, s.impact) == processed + [current] + s.queue
    && (processed == [] ==> s.impact.transitive == [])
  }

  lemma LinedNodes(g: Graph, start: string, s: Search, processed: seq<string>, current: string)
    requires Listed(g, start, s) && Lined(start, s, processed, current)
    ensures current in s.visited && (processed == [] <==> current == start)
    ensures Visiting(start, s.impact)[|processed|] == current
    ensures forall m :: 0 <= m < |processed| ==>
              processed[m] == Visiting(start, s.impact)[m] && processed[m] in s.visited && processed[m] !in s.queue && processed[m] != current
  {
    hide RouteRef.String;
    var v := Visiting(start, s.impact);
    StringsConcat(s.impact.direct, s.impact.transitive);
    var affected := Strings(s.impact.direct + s.impact.transitive);
    assert v == [start] + affected;
    forall x | x in v ensures x in s.visited { if x != start { assert x in Elems(affected); } }
    assert v[|processed|] == current && current in v;
    forall i, j | 0 <= i < j < |v| ensures v[i] != v[j] {
      assert v[j] == affected[j - 1] && affected[j - 1] in Elems(affected);
    }
    forall m | 0 <= m < |processed|
      ensures processed[m] == v[m] && processed[m] in s.visited && processed[m] !in s.queue && processed[m] != current
    {
      assert v[m] in v;
      forall q | 0 <= q < |s.queue| ensures s.queue[q] != v[m] { assert v[|processed| + 1 + q] == s.queue[q]; }
    }
    if processed != [] { assert v[0] == start == processed[0]; }
  }

  /** One pass over the dependents of `current`. */
  method VisitDependents(all: seq<Route>, start: string, directSet: set<string>, entries: seq<Route>, current: string, before: Search,
                         ghost processed: seq<string>)
    returns (s: Search)
    requires var g := ReqGraph(all);
             && Listed(g, start, before) && Classified(all, g, start, before) && Lined(start, before, processed, current)
             && Frontier(g, before, current, []) && directSet == Dependents(g, start)
    requires forall r :: r in entries <==> r in all && current in r.DepKeys()
    ensures var g := ReqGraph(all);
            && Listed(g, start, s) && Classified(all, g, start, s) && before.visited <= s.visited
            && Visiting(start, s.impact) == processed + [current] + s.queue
            && Frontier(g, s, current, entries)
            && (s.visited == before.visited ==> s.queue == before.queue)
  {
    hide RouteRef.String, Listed, Classified, ReqGraph, OtherProvider, Dependents, Route.DepKeys, Lined, Visiting, Reaches;
    ghost var g := ReqGraph(all);
    s := before;
    for j := 0 to |entries|
      invariant Listed(g, start, s) && Classified(all, g, start, s) && before.visited <= s.visited
      invariant Lined(start, s, processed, current)
      invariant Frontier(g, s, current, entries[..j])
      invariant s.visited == before.visited ==> s.queue == before.queue
    {
      var dep := entries[j];
      assert entries[..j + 1] == entries[..j] + [dep];
      var depKey := dep.Key();
      if depKey in s.visited { continue; }
      assert dep in all && current in dep.DepKeys();
      DependentsInList(all, current, depKey);
      assert depKey in g by { DependentIsNode(g, current, depKey); }
      var hasOther := HasOtherProviders(dep, current, all);
      VisitKeepsListed(g, start, s, dep.Ref(), depKey in directSet, !hasOther);
      VisitKeepsLine(all, start, s, processed, current, dep, !hasOther, entries[..j]);
      s := Visit(s, dep.Ref(), depKey in directSet, !hasOther);
    }
    assert entries[..|entries|] == entries;
    LinedIs(start, s, processed, current);
  }

  lemma LinedIs(start: string, s: Search, processed: seq<string>, current: string)
    requires Lined(start, s, processed, current)
    ensures Visiting(start, s.impact) == processed + [current] + s.queue
  {}

  /** Visiting a new dependent of `current`: everything visited earlier has no dependents left to visit. */
  lemma VisitKeepsLine(all: seq<Route>, start: string, s: Search, processed: seq<string>, current: string, dep: Route, orphan: bool, done: seq<Route>)
    requires var g := ReqGraph(all);
             && Listed(g, start, s) && Classified(all, g, start, s) && Lined(start, s, processed, current)
             && Frontier(g, s, current, done) && dep.Key() in Dependents(g, current)
    requires dep in all && current in dep.DepKeys() && dep.Key() !in s.visited && (orphan <==> !OtherProvider(dep, current, all))
    ensures var t := Visit(s, dep.Ref(), dep.Key() in Dependents(ReqGraph(all), start), orphan);
            Classified(all, ReqGraph(all), start, t) && Lined(start, t, processed, current)
  {
    hide RouteRef.String, Listed, ReqGraph, OtherProvider, Dependents, Route.DepKeys, Visiting, Reaches, Judged;
    var g, direct := ReqGraph(all), dep.Key() in Dependents(ReqGraph(all), start);
    LinedNodes(g, start, s, processed, current);
    if processed != [] {
      assert processed[0] == start by { VisitingStarts(start, s.impact); }
      assert Dependents(g, start) <= s.visited;
    }
    assert direct ==> s.impact.transitive == [];
    assert processed == [] ==> direct;
    VisitKeepsClassified(all, start, s, dep, |processed|, orphan);
    VisitingGrows(start, s, dep.Ref(), direct, orphan);
  }

  lemma VisitingStarts(start: string, impact: RemovalImpact)
    ensures |Visiting(start, impact)| > 0 && Visiting(start, impact)[0] == start
  {}

  lemma DependentIsNode(g: Graph, k: string, x: string)
    requires x in Dependents(g, k)
    ensures x in g
  {}

  lemma PassComplete(all: seq<Route>, s: Search, current: string, entries: seq<Route>)
    requires Frontier(ReqGraph(all), s, current, entries)
    requires forall r :: r in entries <==> r in all && current in r.DepKeys()
    ensures Dependents(ReqGraph(all), current) <= s.visited
  {
    hide RouteRef.String, ReqGraph, Route.DepKeys, Dependents;
    forall x | x in Dependents(ReqGraph(all), current) ensures x in s.visited {
      DependentsInList(all, current, x);
    }
  }

  /** What the finished search returns. */
  ghost predicate ImpactExact(all: seq<Route>, start: string, impact: RemovalImpact) {
    var g := ReqGraph(all);
    && Distinct(Strings(impact.direct + impact.transitive))
    && (forall x :: x in Strings(impact.direct) <==> x != start && x in Dependents(g, start))
    && (forall x :: x in Strings(impact.direct + impact.transitive) <==> x != start && Reaches(g, x, start))
    && (forall ref :: ref in impact.direct || ref in impact.transitive ==>
          Judged(all, Visiting(start, impact), ref, ref in impact.orphaned))
    && (forall ref :: ref in impact.orphaned ==> ref in impact.direct || ref in impact.transitive) && Distinct(impact.orphaned)
  }

  method ComputeImpact(route: Route, all: seq<Route>) returns (impact: RemovalImpact)
    ensures ImpactExact(all, route.Key(), impact)
  {
    hide RouteRef.String, Listed, Classified, ReqGraph, Dependents, Route.DepKeys, Judged, Visiting;
    var dependentsOf := DependentsByKey(all);
    var start := route.Key();
    ghost var g := ReqGraph(all);
    var directSet: set<string> := set d | d in EntriesAt(dependentsOf, start) :: d.Key();
    forall x ensures x in directSet <==> x in Dependents(g, start) { DependentsInList(all, start, x); }
    var s := Search({start}, [start], RemovalImpact([], [], []));
    ghost var processed: seq<string> := [];
    SearchStarts(all, g, start);
    while |s.queue| > 0
      invariant Listed(g, start, s) && Classified(all, g, start, s)
      invariant Visiting(start, s.impact) == processed + s.queue && (processed == [] ==> s.impact.transitive == [])
      invariant forall x :: x in s.visited && x !in s.queue ==> Dependents(g, x) <= s.visited
      decreases g.Keys + {start} - s.visited, |s.queue|
    {
      var current := s.queue[0];
      ghost var old' := s;
      s := s.(queue := s.queue[1..]);
      PopKeeps(all, g, start, old');
      assert processed + old'.queue == processed + [current] + s.queue;
      var entries := EntriesAt(dependentsOf, current);
      s := VisitDependents(all, start, directSet, entries, current, s, processed);
      processed := processed + [current];
      PassComplete(all, s, current, entries);
      VisitedInside(g, start, s);
    }
    impact := s.impact;
    SearchEnds(all, start, s);
  }

  lemma SearchStarts(all: seq<Route>, g: Graph, start: string)
    ensures var s := Search({start}, [start], RemovalImpact([], [], []));
            Listed(g, start, s) && Classified(all, g, start, s) && Visiting(start, s.impact) == [] + s.queue
  {
    assert Strings([]) == [];
  }

  lemma PopKeeps(all: seq<Route>, g: Graph, start: string, s: Search)
    requires s.queue != [] && Listed(g, start, s) && Classified(all, g, start, s)
    requires forall x :: x in s.visited && x !in s.queue ==> Dependents(g, x) <= s.visited
    ensures var t := s.(queue := s.queue[1..]);
            && Listed(g, start, t) && Classified(all, g, start, t) && s.queue[0] in s.visited
            && Frontier(g, t, s.queue[0], [])
  {
    hide Dependents, Reaches, Judged;
    assert s.queue[0] in Elems(s.queue);
    assert forall x :: x in s.queue <==> x == s.queue[0] || x in s.queue[1..];
  }

  lemma VisitedInside(g: Graph, start: string, s: Search)
    requires Listed(g, start, s)
    ensures s.visited <= g.Keys + {start}
  {}

  lemma SearchEnds(all: seq<Route>, start: string, s: Search)
    requires var g := ReqGraph(all);
             Listed(g, start, s) && Classified(all, g, start, s) && s.queue == []
             && forall x :: x in s.visited ==> Dependents(g, x) <= s.visited
    ensures ImpactExact(all, start, s.impact)
  {
    hide RouteRef.String, ReqGraph, Judged, Reaches;
    var g, i := ReqGraph(all), s.impact;
    ClosedCatches(g, start, s.visited);
    StringsConcat(i.direct, i.transitive);
    var affected := Strings(i.direct + i.transitive);
    assert forall x :: x in affected <==> x in Elems(affected);
    assert forall x :: x in affected <==> x in Strings(i.direct) || x in Strings(i.transitive);
  }
}

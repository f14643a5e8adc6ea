/** Who is affected by a node: the nodes that require their way to it, as found by depth-first and breadth-first search. */
module Reachability {
  import opened Lexical
  import opened Graph

  /** The nodes that require `k` directly. */
  ghost function Dependents(g: Graph, k: string): set<string> {
    set x | x in g && k in g[x]
  }

  ghost predicate ConnectsAvoiding(g: Graph, p: seq<string>, a: string, b: string, v: set<string>) {
    Connects(g, p, a, b) && forall i :: 0 <= i < |p| - 1 ==> p[i] !in v
  }

  /** A chain of requirements leads from `a` to `b` without passing `v` before it ends. */
  ghost predicate ReachesAvoiding(g: Graph, a: string, b: string, v: set<string>) {
    exists p :: ConnectsAvoiding(g, p, a, b, v)
  }

  // ----- depth first, with a visited set shared by every branch -----

  /** Exploring from `u` has grown the visited set from `before` to `now` and listed the difference in `out`. */
  ghost predicate Explored(g: Graph, u: string, before: set<string>, now: set<string>, out: seq<string>) {
    && before <= now
    && (forall x :: x in now - before ==> Dependents(g, x) <= now)
    && (forall x :: x in now - before ==> ReachesAvoiding(g, x, u, before))
    && Distinct(out) && Elems(out) == now - before
  }

  lemma ExtendAvoiding(g: Graph, x: string, d: string, u: string, before: set<string>, wider: set<string>)
    requires ReachesAvoiding(g, x, d, wider) && before <= wider && d in Dependents(g, u) && d !in before
    ensures ReachesAvoiding(g, x, u, before)
  {
    var p :| ConnectsAvoiding(g, p, x, d, wider);
    assert ConnectsAvoiding(g, p + [u], x, u, before);
  }

  lemma EdgeAvoiding(g: Graph, d: string, u: string, before: set<string>)
    requires d in Dependents(g, u) && d !in before
    ensures ReachesAvoiding(g, d, u, before)
  {
    assert ConnectsAvoiding(g, [d, u], d, u, before);
  }

  lemma DistinctAround(a: seq<string>, d: string, b: seq<string>)
    requires Distinct(a) && Distinct(b) && d !in a && d !in b && Elems(a) !! Elems(b)
    ensures Distinct(a + [d] + b) && Elems(a + [d] + b) == Elems(a) + {d} + Elems(b)
  {
    var s := a + [d] + b;
    assert forall x :: x in b ==> x in Elems(b);
    assert forall x :: x in a ==> x in Elems(a);
    assert forall i :: 0 <= i < |a| ==> s[i] == a[i] && s[i] in a;
    assert forall i :: |a| < i < |s| ==> s[i] == b[i - |a| - 1] && s[i] in b;
  }

  /** One unvisited dependent `d`: mark it, explore from it, and the result extends what was explored from `u`. */
  lemma ExploreStep(g: Graph, u: string, before: set<string>, now: set<string>, out: seq<string>, d: string, next: set<string>, sub: seq<string>)
    requires Explored(g, u, before, now, out) && d in Dependents(g, u) && d !in now
    requires Explored(g, d, now + {d}, next, sub) && Dependents(g, d) <= next
    ensures Explored(g, u, before, next, out + [d] + sub)
  {
    hide ReachesAvoiding, Dependents;
    forall x | x in next - before ensures Dependents(g, x) <= next && ReachesAvoiding(g, x, u, before) {
      if x in now {
      } else if x == d {
        EdgeAvoiding(g, d, u, before);
      } else {
        ExtendAvoiding(g, x, d, u, before, now + {d});
      }
    }
    assert forall x :: x in sub ==> x in Elems(sub);
    assert forall x :: x in out ==> x in Elems(out);
    DistinctAround(out, d, sub);
  }

  lemma {:induction false} ExploredCatchesPath(g: Graph, u: string, before: set<string>, now: set<string>, out: seq<string>, p: seq<string>)
    requires Explored(g, u, before, now, out) && Dependents(g, u) <= now
    requires |p| >= 2 && ConnectsAvoiding(g, p, p[0], u, before)
    ensures p[0] in now - before
    decreases |p|
  {
    assert p[0] in g && p[0 + 1] in g[p[0]] && p[0] !in before;
    if |p| > 2 {
      assert ConnectsAvoiding(g, p[1..], p[1], u, before);
      ExploredCatchesPath(g, u, before, now, out, p[1..]);
    }
    assert p[0] in Dependents(g, p[1]);
  }

  /** What a finished exploration adds is exactly what reaches `u` along unvisited nodes. */
  lemma WhitePath(g: Graph, u: string, before: set<string>, now: set<string>, out: seq<string>, x: string)
    requires Explored(g, u, before, now, out) && Dependents(g, u) <= now
    ensures x in out <==> ReachesAvoiding(g, x, u, before)
  {
    assert x in out <==> x in Elems(out);
    if ReachesAvoiding(g, x, u, before) {
      var p :| ConnectsAvoiding(g, p, x, u, before);
      ExploredCatchesPath(g, u, before, now, out, p);
    }
  }

  /** Splitting the affected nodes into dependents, and those that reach a dependent without passing `k`. */
  lemma AffectedSplit(g: Graph, k: string, x: string)
    requires x != k
    ensures Reaches(g, x, k) <==>
            x in Dependents(g, k) || exists d :: d in Dependents(g, k) && ReachesAvoiding(g, x, d, {k})
  {
    if Reaches(g, x, k) {
      var p :| Connects(g, p, x, k);
      var m := FirstOccurrence(p, k);
      assert p[m - 1] in g && p[m - 1 + 1] in g[p[m - 1]];
      if m > 1 {
        assert ConnectsAvoiding(g, p[..m], x, p[m - 1], {k});
        assert ReachesAvoiding(g, x, p[m - 1], {k});
      }
    } else {
      if x in Dependents(g, k) { ReachesEdge(g, x, k); }
      if d :| d in Dependents(g, k) && ReachesAvoiding(g, x, d, {k}) {
        var p :| ConnectsAvoiding(g, p, x, d, {k});
        assert Reaches(g, x, d);
        ReachesEdge(g, d, k);
        ReachesTransitive(g, x, d, k);
      }
    }
  }

  lemma {:induction false} FirstOccurrence(p: seq<string>, k: string) returns (m: nat)
    requires k in p
    ensures m < |p| && p[m] == k && k !in p[..m]
  {
    m := 0;
    while p[m] != k
      invariant m < |p| && k !in p[..m] && k in p[m..]
      decreases |p| - m
    {
      m := m + 1;
    }
  }

  // ----- breadth first -----

  /** A set that holds `k` and, with each member, its dependents. */
  lemma {:induction false} ClosedCatchesPath(g: Graph, k: string, v: set<string>, p: seq<string>)
    requires k in v && forall x :: x in v ==> Dependents(g, x) <= v
    requires IsPath(g, p) && p[|p| - 1] == k
    ensures p[0] in v
    decreases |p|
  {
    if |p| > 1 {
      assert p[0] in g && p[0 + 1] in g[p[0]];
      ClosedCatchesPath(g, k, v, p[1..]);
      assert p[0] in Dependents(g, p[1]);
    }
  }

  lemma ClosedCatches(g: Graph, k: string, v: set<string>)
    requires k in v && forall x :: x in v ==> Dependents(g, x) <= v
    ensures forall x :: Reaches(g, x, k) ==> x in v
  {
    forall x | Reaches(g, x, k) ensures x in v {
      var p :| Connects(g, p, x, k);
      ClosedCatchesPath(g, k, v, p);
    }
  }
}

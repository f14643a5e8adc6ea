/** Dependency graphs, seen as: each key, and the set of keys it requires. */
module Graph {
  import opened Lexical

  type Graph = map<string, set<string>>

  /** Every requirement is itself a node. */
  ghost predicate Closed(g: Graph) {
    forall n :: n in g ==> g[n] <= g.Keys
  }

  /** Each entry of `p` requires the next one. */
  ghost predicate IsPath(g: Graph, p: seq<string>) {
    p != [] && forall i :: 0 <= i < |p| - 1 ==> p[i] in g && p[i + 1] in g[p[i]]
  }

  ghost predicate Connects(g: Graph, p: seq<string>, a: string, b: string) {
    IsPath(g, p) && |p| >= 2 && p[0] == a && p[|p| - 1] == b
  }

  /** A chain of one or more requirements leads from `a` to `b`. */
  ghost predicate Reaches(g: Graph, a: string, b: string) {
    exists p :: Connects(g, p, a, b)
  }

  ghost predicate Acyclic(g: Graph) {
    forall a :: !Reaches(g, a, a)
  }

  /** `a` is on a cycle, or requires its way to one. */
  ghost predicate ReachesCycle(g: Graph, a: string) {
    exists z :: Reaches(g, z, z) && (a == z || Reaches(g, a, z))
  }

  lemma ReachesEdge(g: Graph, a: string, b: string)
    requires a in g && b in g[a]
    ensures Reaches(g, a, b)
  {
    assert Connects(g, [a, b], a, b);
  }

  lemma ReachesTransitive(g: Graph, a: string, b: string, c: string)
    requires Reaches(g, a, b) && Reaches(g, b, c)
    ensures Reaches(g, a, c)
  {
    var p :| Connects(g, p, a, b);
    var q :| Connects(g, q, b, c);
    assert Connects(g, p + q[1..], a, c);
  }

  lemma ReachesUnfold(g: Graph, a: string, b: string) returns (n: string)
    requires Reaches(g, a, b)
    ensures a in g && n in g[a] && (n == b || Reaches(g, n, b))
  {
    var p :| Connects(g, p, a, b);
    n := p[1];
    if |p| > 2 { assert Connects(g, p[1..], n, b); }
  }

  // ----- topological sequences -----

  /** Distinct nodes, each after everything it requires. */
  ghost predicate Topological(g: Graph, order: seq<string>) {
    && Distinct(order)
    && forall i :: 0 <= i < |order| ==> order[i] in g && g[order[i]] <= Elems(order[..i])
  }

  /** A path that starts in a topological sequence runs backwards through it. */
  lemma {:induction false} PathRunsBackwards(g: Graph, order: seq<string>, p: seq<string>, i: nat) returns (j: nat)
    requires Topological(g, order) && IsPath(g, p) && i < |order| && p[0] == order[i]
    ensures j <= i && order[j] == p[|p| - 1] && (|p| >= 2 ==> j < i)
  {
    j := i;
    if |p| >= 2 {
      assert p[1] in Elems(order[..i]);
      var k :| 0 <= k < i && order[k] == p[1];
      assert IsPath(g, p[1..]);
      j := PathRunsBackwards(g, order, p[1..], k);
    }
  }

  /** Nothing in a topological sequence leads to a cycle. */
  lemma TopologicalAvoidsCycles(g: Graph, order: seq<string>, n: string)
    requires Topological(g, order) && n in order
    ensures !ReachesCycle(g, n)
  {
    if ReachesCycle(g, n) {
      var z :| Reaches(g, z, z) && (n == z || Reaches(g, n, z));
      var i :| 0 <= i < |order| && order[i] == n;
      var k := i;
      if n != z {
        var q :| Connects(g, q, n, z);
        k := PathRunsBackwards(g, order, q, i);
      }
      var p :| Connects(g, p, z, z);
      var j := PathRunsBackwards(g, order, p, k);
      assert false;
    }
  }

  // ----- sets from which no walk escapes -----

  /** Every member requires another member, so a walk inside never ends. */
  ghost predicate Stuck(g: Graph, s: set<string>) {
    s <= g.Keys && forall n :: n in s ==> g[n] * s != {}
  }

  lemma {:induction false} EndlessWalk(g: Graph, s: set<string>, n: string, k: nat) returns (p: seq<string>)
    requires Stuck(g, s) && n in s
    ensures |p| == k + 1 && IsPath(g, p) && p[0] == n && Elems(p) <= s
    decreases k
  {
    if k == 0 {
      p := [n];
    } else {
      var m :| m in g[n] * s;
      var q := EndlessWalk(g, s, m, k - 1);
      p := [n] + q;
    }
  }

  lemma {:induction false} Pigeonhole(p: seq<string>, s: set<string>) returns (i: nat, j: nat)
    requires Elems(p) <= s && |p| > |s|
    ensures i < j < |p| && p[i] == p[j]
  {
    if Distinct(p) {
      DistinctSize(p);
      SubsetSize(Elems(p), s);
      assert false;
    }
    i, j :| 0 <= i < j < |p| && p[i] == p[j];
  }

  /** A walk longer than the number of nodes it can use has closed a cycle. */
  lemma StuckReachesCycle(g: Graph, s: set<string>, n: string)
    requires Stuck(g, s) && n in s
    ensures ReachesCycle(g, n)
  {
    var p := EndlessWalk(g, s, n, |s|);
    var i, j := Pigeonhole(p, s);
    var z := p[i];
    assert Connects(g, p[i..j + 1], z, z);
    assert Reaches(g, z, z);
    if i > 0 { assert Connects(g, p[..i + 1], n, z); }
  }
}

/**
 The layered topological sort shared by the route resolver and the lifecycle manager.
 `Run` states what the sort computes in terms of the graph alone; `Drain` is the loop that counts degrees.
 */
module Kahn {
  import opened Lexical
  import opened Graph

  datatype State = State(order: seq<string>, queue: seq<string>)

  ghost predicate Inv(g: Graph, s: State) {
    && Distinct(s.order + s.queue)
    && Topological(g, s.order)
    && (forall n :: n in s.queue ==> n in g && g[n] <= Elems(s.order))
    && (forall n :: n in g && g[n] <= Elems(s.order) ==> n in s.order || n in s.queue)
  }

  ghost function Ready(g: Graph): set<string> {
    set n | n in g && g[n] == {}
  }

  /** The nodes whose last outstanding requirement is `c`. */
  ghost function Freed(g: Graph, done: set<string>, c: string): set<string> {
    set n | n in g && c in g[n] && g[n] <= done + {c}
  }

  ghost function Start(g: Graph): State {
    State([], SortedOf(Ready(g)))
  }

  lemma StartKeepsInv(g: Graph)
    ensures Inv(g, Start(g))
  {
    var q := SortedOf(Ready(g));
    SortedOfExact(Ready(g));
    assert [] + q == q;
  }

  ghost function Step(g: Graph, s: State): (t: State)
    requires s.queue != []
  {
    var c := s.queue[0];
    State(s.order + [c], s.queue[1..] + SortedOf(Freed(g, Elems(s.order), c)))
  }

  lemma DistinctConcat(a: seq<string>, b: seq<string>)
    requires Distinct(a) && Distinct(b) && forall n :: n in b ==> n !in a
    ensures Distinct(a + b)
  {
    var s := a + b;
    forall i, j | 0 <= i < j < |s| ensures s[i] != s[j] {
      if i < |a| <= j {
        assert s[j] == b[j - |a|] && s[j] in b && s[i] in a;
      }
    }
  }

  lemma DistinctParts(a: seq<string>, b: seq<string>, n: string)
    requires Distinct(a + b) && n in b
    ensures n !in a
  {
    var j :| 0 <= j < |b| && b[j] == n;
    assert (a + b)[|a| + j] == n;
    assert forall i :: 0 <= i < |a| ==> (a + b)[i] == a[i];
  }

  lemma FreedIsNew(g: Graph, s: State, n: string)
    requires Inv(g, s) && s.queue != [] && n in Freed(g, Elems(s.order), s.queue[0])
    ensures n !in s.order + s.queue
  {
    var c := s.queue[0];
    DistinctParts(s.order, s.queue, c);
  }

  lemma Regroup(a: seq<string>, q: seq<string>, f: seq<string>)
    requires q != []
    ensures (a + [q[0]]) + (q[1..] + f) == (a + q) + f
  {
    assert q == [q[0]] + q[1..];
  }

  lemma StepDistinct(g: Graph, s: State)
    requires Inv(g, s) && s.queue != []
    ensures Distinct(Step(g, s).order + Step(g, s).queue)
  {
    var freed := SortedOf(Freed(g, Elems(s.order), s.queue[0]));
    var seen := s.order + s.queue;
    SortedOfExact(Freed(g, Elems(s.order), s.queue[0]));
    forall n | n in freed ensures n !in seen {
      FreedIsNew(g, s, n);
    }
    DistinctConcat(seen, freed);
    Regroup(s.order, s.queue, freed);
  }

  lemma TopologicalAppend(g: Graph, order: seq<string>, c: string)
    requires Topological(g, order) && c !in order && c in g && g[c] <= Elems(order)
    ensures Topological(g, order + [c])
  {
    var t := order + [c];
    forall i | 0 <= i < |t| ensures t[i] in g && g[t[i]] <= Elems(t[..i]) {
      assert t[..i] == order[..i];
    }
  }

  lemma StepWaits(g: Graph, s: State, n: string)
    requires Inv(g, s) && s.queue != []
    ensures n in Step(g, s).queue ==> n in g && g[n] <= Elems(Step(g, s).order)
    ensures n in g && g[n] <= Elems(Step(g, s).order) ==> n in Step(g, s).order || n in Step(g, s).queue
  {
    var c, done := s.queue[0], Elems(s.order);
    var freed := Freed(g, done, c);
    SortedOfExact(freed);
    assert Elems(s.order + [c]) == done + {c};
    assert n in s.queue <==> n == c || n in s.queue[1..];
  }

  lemma StepKeepsInv(g: Graph, s: State)
    requires Inv(g, s) && s.queue != []
    ensures Inv(g, Step(g, s))
  {
    StepDistinct(g, s);
    DistinctParts(s.order, s.queue, s.queue[0]);
    TopologicalAppend(g, s.order, s.queue[0]);
    forall n ensures
      && (n in Step(g, s).queue ==> n in g && g[n] <= Elems(Step(g, s).order))
      && (n in g && g[n] <= Elems(Step(g, s).order) ==> n in Step(g, s).order || n in Step(g, s).queue)
    {
      StepWaits(g, s, n);
    }
  }

  lemma OrderFits(g: Graph, s: State)
    requires Inv(g, s)
    ensures |s.order| + |s.queue| <= |g|
  {
    var seen := s.order + s.queue;
    DistinctSize(seen);
    assert Elems(seen) <= g.Keys;
    SubsetSize(Elems(seen), g.Keys);
    assert |g.Keys| == |g|;
  }

  ghost function Run(g: Graph, s: State): State
    requires Inv(g, s)
    decreases |g| - |s.order|
  {
    OrderFits(g, s);
    if s.queue == [] then s
    else
      StepKeepsInv(g, s);
      Run(g, Step(g, s))
  }

  lemma {:induction false} RunKeepsInv(g: Graph, s: State)
    requires Inv(g, s)
    ensures Inv(g, Run(g, s)) && Run(g, s).queue == []
    decreases |g| - |s.order|
  {
    OrderFits(g, s);
    if s.queue != [] {
      StepKeepsInv(g, s);
      hide Inv;
      RunKeepsInv(g, Step(g, s));
    }
  }

  /** The order the sort produces; it stops short when there are cycles. */
  ghost function Order(g: Graph): seq<string> {
    StartKeepsInv(g);
    Run(g, Start(g)).order
  }

  // ----- what the order is -----

  lemma OrderTopological(g: Graph)
    ensures Topological(g, Order(g)) && Elems(Order(g)) <= g.Keys && |Order(g)| <= |g|
  {
    StartKeepsInv(g);
    RunKeepsInv(g, Start(g));
    OrderFits(g, Run(g, Start(g)));
    var o := Order(g);
    forall n | n in Elems(o) ensures n in g {
      var i :| 0 <= i < |o| && o[i] == n;
    }
  }

  /** The sort stops only when every node whose requirements are met has been taken. */
  lemma OrderMaximal(g: Graph, n: string)
    requires n in g && g[n] <= Elems(Order(g))
    ensures n in Order(g)
  {
    StartKeepsInv(g);
    RunKeepsInv(g, Start(g));
  }

  /** The nodes left out are exactly those that require their way to a cycle. */
  lemma LeftOutReachesCycle(g: Graph, n: string)
    requires Closed(g) && n in g
    ensures n !in Order(g) <==> ReachesCycle(g, n)
  {
    OrderTopological(g);
    var rest := g.Keys - Elems(Order(g));
    if n in Order(g) {
      TopologicalAvoidsCycles(g, Order(g), n);
    } else {
      forall m | m in rest ensures g[m] * rest != {} {
        if g[m] <= Elems(Order(g)) { OrderMaximal(g, m); }
        var d :| d in g[m] && d !in Elems(Order(g));
        assert d in g[m] * rest;
      }
      StuckReachesCycle(g, rest, n);
    }
  }

  lemma OrderCompleteIff(g: Graph)
    requires Closed(g)
    ensures |Order(g)| == |g| <==> Acyclic(g)
    ensures |Order(g)| == |g| <==> Elems(Order(g)) == g.Keys
  {
    OrderTopological(g);
    DistinctSize(Order(g));
    SubsetSize(Elems(Order(g)), g.Keys);
    assert |g.Keys| == |g|;
    if Acyclic(g) {
      forall n | n in g ensures n in Order(g) {
        LeftOutReachesCycle(g, n);
      }
      assert Elems(Order(g)) == g.Keys;
    } else {
      var z :| Reaches(g, z, z);
      var _ := ReachesUnfold(g, z, z);
      assert ReachesCycle(g, z);
      LeftOutReachesCycle(g, z);
    }
  }

  // ----- the tie-break -----

  /** The length of the shortest prefix of `order` that holds everything `n` requires. */
  ghost function ReleasedAt(g: Graph, order: seq<string>, n: string): (k: nat)
    requires n in g
    ensures k <= |order|
  {
    if order == [] || !(g[n] <= Elems(order[..|order| - 1])) then |order| else ReleasedAt(g, order[..|order| - 1], n)
  }

  /** Of two nodes the one released earlier comes first, and of two released together the smaller one. */
  ghost predicate Precedes(g: Graph, order: seq<string>, a: string, b: string)
    requires a in g && b in g
  {
    ReleasedAt(g, order, a) < ReleasedAt(g, order, b)
    || (ReleasedAt(g, order, a) == ReleasedAt(g, order, b) && Less(a, b))
  }

  ghost predicate Layered(g: Graph, order: seq<string>, listed: seq<string>) {
    forall i, j :: 0 <= i < j < |listed| && listed[i] in g && listed[j] in g ==> Precedes(g, order, listed[i], listed[j])
  }

  lemma {:induction false} ReleasedInPrefix(g: Graph, order: seq<string>, k: nat, n: string)
    requires n in g && k <= |order| && g[n] <= Elems(order[..k])
    ensures ReleasedAt(g, order, n) == ReleasedAt(g, order[..k], n)
    decreases |order|
  {
    if k < |order| {
      var front := order[..|order| - 1];
      assert front[..k] == order[..k];
      assert Elems(order[..k]) <= Elems(front);
      ReleasedInPrefix(g, front, k, n);
    } else {
      assert order[..k] == order;
    }
  }

  lemma StepKeepsLayers(g: Graph, s: State)
    requires Inv(g, s) && s.queue != [] && Layered(g, s.order, s.order + s.queue)
    ensures Layered(g, Step(g, s).order, Step(g, s).order + Step(g, s).queue)
  {
    hide ReleasedAt, Freed, Distinct, Topological, Less;
    var c, t := s.queue[0], Step(g, s);
    var freed := SortedOf(Freed(g, Elems(s.order), c));
    SortedOfExact(Freed(g, Elems(s.order), c));
    var seen := s.order + s.queue;
    Regroup(s.order, s.queue, freed);
    assert t.order + t.queue == seen + freed;
    forall n | n in seen ensures n in g && ReleasedAt(g, t.order, n) == ReleasedAt(g, s.order, n) <= |s.order| {
      SeenIsReleased(g, s, n);
    }
    forall n | n in freed ensures n in g && ReleasedAt(g, t.order, n) == |s.order| + 1 {
      FreedIsReleased(g, s, n);
    }
  }

  lemma SeenIsReleased(g: Graph, s: State, n: string)
    requires Inv(g, s) && s.queue != [] && n in s.order + s.queue
    ensures n in g && ReleasedAt(g, Step(g, s).order, n) == ReleasedAt(g, s.order, n)
  {
    var order := Step(g, s).order;
    assert order[..|s.order|] == s.order;
    if n in s.order {
      var i :| 0 <= i < |s.order| && s.order[i] == n;
      assert Elems(s.order[..i]) <= Elems(s.order);
    }
    ReleasedInPrefix(g, order, |s.order|, n);
  }

  lemma FreedIsReleased(g: Graph, s: State, n: string)
    requires Inv(g, s) && s.queue != [] && n in Freed(g, Elems(s.order), s.queue[0])
    ensures n in g && ReleasedAt(g, s.order + [s.queue[0]], n) == |s.order| + 1
  {
    DistinctParts(s.order, s.queue, s.queue[0]);
    var order := s.order + [s.queue[0]];
    assert order[..|order| - 1] == s.order;
    assert s.queue[0] in g[n] && s.queue[0] !in Elems(s.order);
  }

  lemma {:induction false} RunKeepsLayers(g: Graph, s: State)
    requires Inv(g, s) && Layered(g, s.order, s.order + s.queue)
    ensures Layered(g, Run(g, s).order, Run(g, s).order)
    decreases |g| - |s.order|
  {
    hide Inv, Layered, Step;
    OrderFits(g, s);
    if s.queue == [] {
      assert s.order + s.queue == s.order;
    } else {
      StepKeepsInv(g, s);
      StepKeepsLayers(g, s);
      StepGrows(g, s);
      RunKeepsLayers(g, Step(g, s));
    }
  }

  lemma StepGrows(g: Graph, s: State)
    requires s.queue != []
    ensures |Step(g, s).order| == |s.order| + 1
  {}

  /** The order is sorted by release position, then by key. */
  lemma OrderLayered(g: Graph)
    ensures Layered(g, Order(g), Order(g))
  {
    var q := SortedOf(Ready(g));
    SortedOfExact(Ready(g));
    assert [] + q == q;
    StartKeepsInv(g);
    RunKeepsLayers(g, Start(g));
  }

  lemma {:induction false} ReleasedIff(g: Graph, order: seq<string>, n: string, k: nat)
    requires n in g && g[n] <= Elems(order) && k <= |order|
    ensures g[n] <= Elems(order[..k]) <==> ReleasedAt(g, order, n) <= k
    decreases |order|
  {
    var m := |order| - 1;
    if k == |order| {
      assert order[..k] == order;
    } else {
      assert order[..m][..k] == order[..k] && order[..m] == order[..k] + order[k..m];
      assert Elems(order[..k]) <= Elems(order[..m]);
      if g[n] <= Elems(order[..m]) { ReleasedIff(g, order[..m], n, k); }
    }
  }

  /**
   Of two nodes of the outcome the one whose requirements are met earlier comes first. If every prefix meets those of both or
   of neither, the one earlier in byte order does.
   */
  lemma OrderTies(g: Graph, i: nat, j: nat)
    requires i < j < |Order(g)|
    ensures Order(g)[i] in g && Order(g)[j] in g
    ensures var order, a, b := Order(g), Order(g)[i], Order(g)[j];
            || (exists k :: 0 <= k <= |order| && g[a] <= Elems(order[..k]) && !(g[b] <= Elems(order[..k])))
            || ((forall k :: 0 <= k <= |order| ==> (g[a] <= Elems(order[..k]) <==> g[b] <= Elems(order[..k]))) && Earlier(a, b))
  {
    hide Order, Earlier;
    var order := Order(g);
    OrderTopological(g);
    OrderLayered(g);
    var a, b := order[i], order[j];
    assert a in Elems(order) && b in Elems(order);
    assert Elems(order[..i]) <= Elems(order) && Elems(order[..j]) <= Elems(order);
    var k := ReleasedAt(g, order, a);
    forall m | 0 <= m <= |order|
      ensures g[a] <= Elems(order[..m]) <==> ReleasedAt(g, order, a) <= m
      ensures g[b] <= Elems(order[..m]) <==> ReleasedAt(g, order, b) <= m
    {
      ReleasedIff(g, order, a, m);
      ReleasedIff(g, order, b, m);
    }
    LessIff(a, b);
    if ReleasedAt(g, order, a) < ReleasedAt(g, order, b) {
      assert g[a] <= Elems(order[..k]) && !(g[b] <= Elems(order[..k]));
    }
  }

  lemma {:induction false} LayeredPrefix(g: Graph, a: seq<string>, b: seq<string>, k: nat)
    requires Topological(g, a) && Topological(g, b) && Layered(g, a, a) && Layered(g, b, b)
    requires Elems(a) == Elems(b) && |a| == |b| && k <= |a|
    ensures a[..k] == b[..k]
    decreases k
  {
    if k > 0 {
      var n := k - 1;
      LayeredPrefix(g, a, b, n);
      if a[n] != b[n] {
        OutOfPlace(g, a, b, n);
        OutOfPlace(g, b, a, n);
        LessAsymmetric(a[n], b[n]);
        assert false;
      }
      assert a[..k] == a[..n] + [a[n]] && b[..k] == b[..n] + [b[n]];
    }
  }

  lemma LessAsymmetric(x: string, y: string)
    ensures !(Less(x, y) && Less(y, x))
  {
    if Less(x, y) && Less(y, x) { LeqAntisymmetric(x, y); }
  }

  /** If two such orders part at `n`, the entry of the first precedes the entry of the second, by releases in the common part. */
  lemma OutOfPlace(g: Graph, a: seq<string>, b: seq<string>, n: nat)
    requires Topological(g, a) && Topological(g, b) && Layered(g, a, a) && Elems(a) == Elems(b)
    requires n < |a| && n < |b| && a[..n] == b[..n] && a[n] != b[n]
    ensures a[n] in g && b[n] in g && Precedes(g, a[..n], a[n], b[n])
  {
    hide Less, ReleasedAt;
    assert b[n] in Elems(a);
    var j :| 0 <= j < |a| && a[j] == b[n];
    assert n < j;
    ReleasedInPrefix(g, a, n, a[n]);
    ReleasedInPrefix(g, a, n, b[n]);
    assert Precedes(g, a, a[n], a[j]);
  }

  /** Release position and key leave only one order: the outcome does not depend on how the queue is kept. */
  lemma LayeredUnique(g: Graph, a: seq<string>)
    requires Topological(g, a) && Layered(g, a, a) && Elems(a) == Elems(Order(g))
    ensures a == Order(g)
  {
    hide Layered;
    var b := Order(g);
    OrderTopological(g);
    OrderLayered(g);
    DistinctSize(a);
    DistinctSize(b);
    LayeredPrefix(g, a, b, |a|);
    assert a[..|a|] == a && b[..|b|] == b;
  }

  // ----- deleting a node nobody requires -----

  function DeleteNode(g: Graph, r: string): Graph {
    map n | n in g && n != r :: g[n]
  }

  ghost predicate Unrequired(g: Graph, r: string) {
    forall n :: n in g ==> r !in g[n]
  }

  function StateWithout(s: State, r: string): State {
    State(Without(s.order, r), Without(s.queue, r))
  }

  lemma StepWithoutHead(g: Graph, s: State, r: string)
    requires Unrequired(g, r) && s.queue != [] && s.queue[0] == r
    ensures StateWithout(Step(g, s), r) == StateWithout(s, r)
  {
    assert Freed(g, Elems(s.order), r) == {};
    assert s.queue[1..] + SortedOf({}) == s.queue[1..];
    WithoutAppend(s.order, [r], r);
    assert Without([r], r) == [];
  }

  lemma StepWithoutOther(g: Graph, s: State, r: string)
    requires Unrequired(g, r) && s.queue != [] && s.queue[0] != r
    ensures StateWithout(s, r).queue != []
    ensures StateWithout(Step(g, s), r) == Step(DeleteNode(g, r), StateWithout(s, r))
  {
    var c, done := s.queue[0], Elems(s.order);
    var freed := Freed(g, done, c);
    WithoutAppend(s.order, [c], r);
    WithoutAbsent([c], r);
    WithoutAppend(s.queue[1..], SortedOf(freed), r);
    assert Without(s.queue, r) == [c] + Without(s.queue[1..], r);
    assert Elems(Without(s.order, r)) == done - {r};
    FreedWithout(g, done, c, r);
    SortedOfMinus(freed, r);
  }

  lemma FreedWithout(g: Graph, done: set<string>, c: string, r: string)
    requires Unrequired(g, r)
    ensures Freed(DeleteNode(g, r), done - {r}, c) == Freed(g, done, c) - {r}
  {}

  /** The run on the smaller graph shadows the run on the larger one, skipping the step that takes `r`. */
  lemma {:induction false} RunWithout(g: Graph, s: State, r: string)
    requires Unrequired(g, r) && Inv(g, s) && Inv(DeleteNode(g, r), StateWithout(s, r))
    ensures Run(DeleteNode(g, r), StateWithout(s, r)).order == Without(Run(g, s).order, r)
    decreases |g| - |s.order|
  {
    OrderFits(g, s);
    if s.queue != [] {
      StepKeepsInv(g, s);
      if s.queue[0] == r {
        StepWithoutHead(g, s, r);
      } else {
        StepWithoutOther(g, s, r);
        StepKeepsInv(DeleteNode(g, r), StateWithout(s, r));
      }
      RunWithout(g, Step(g, s), r);
    }
  }

  lemma StartWithout(g: Graph, r: string)
    requires Unrequired(g, r)
    ensures Start(DeleteNode(g, r)) == StateWithout(Start(g), r)
  {
    hide Inv;
    assert Ready(DeleteNode(g, r)) == Ready(g) - {r};
    SortedOfMinus(Ready(g), r);
  }

  lemma OrderWithout(g: Graph, r: string)
    requires Unrequired(g, r)
    ensures Order(DeleteNode(g, r)) == Without(Order(g), r)
  {
    hide Inv, Run, Without, Start;
    StartWithout(g, r);
    StartKeepsInv(g);
    StartKeepsInv(DeleteNode(g, r));
    RunWithout(g, Start(g), r);
  }

  // ----- renaming every key by a common prefix -----

  function PrefixedGraph(p: string, g: Graph): Graph {
    map k | k in PrefixedSet(p, g.Keys) :: PrefixedSet(p, g[k[|p|..]])
  }

  lemma PrefixedMember(p: string, x: string, a: set<string>)
    ensures p + x in PrefixedSet(p, a) <==> x in a
  {
    if p + x in PrefixedSet(p, a) {
      var y :| y in a && p + y == p + x;
      PrefixInjective(p, x, y);
    }
  }

  lemma PrefixedFreed(p: string, g: Graph, done: set<string>, c: string)
    ensures Freed(PrefixedGraph(p, g), PrefixedSet(p, done), p + c) == PrefixedSet(p, Freed(g, done, c))
  {
    var h := PrefixedGraph(p, g);
    forall k ensures k in Freed(h, PrefixedSet(p, done), p + c) <==> k in PrefixedSet(p, Freed(g, done, c)) {
      if k in h {
        var n :| n in g && k == p + n;
        PrefixedMember(p, c, g[n]);
        if PrefixedSet(p, g[n]) <= PrefixedSet(p, done + {c}) {
          forall x | x in g[n] ensures x in done + {c} {
            PrefixedMember(p, x, g[n]);
            PrefixedMember(p, x, done + {c});
          }
        }
        PrefixedMember(p, n, Freed(g, done, c));
      }
    }
  }

  lemma PrefixedReady(p: string, g: Graph)
    ensures Ready(PrefixedGraph(p, g)) == PrefixedSet(p, Ready(g))
  {
    var h := PrefixedGraph(p, g);
    forall k ensures k in Ready(h) <==> k in PrefixedSet(p, Ready(g)) {
      if k in h {
        var n :| n in g && k == p + n;
        PrefixedMember(p, n, Ready(g));
        if d :| d in g[n] { PrefixedMember(p, d, g[n]); }
      }
    }
  }

  function PrefixedState(p: string, s: State): State {
    State(Prefixed(p, s.order), Prefixed(p, s.queue))
  }

  lemma StepPrefixed(p: string, g: Graph, s: State)
    requires s.queue != []
    ensures Step(PrefixedGraph(p, g), PrefixedState(p, s)) == PrefixedState(p, Step(g, s))
  {
    var c, done := s.queue[0], Elems(s.order);
    PrefixedElems(p, s.order);
    PrefixedFreed(p, g, done, c);
    SortedOfPrefixed(p, Freed(g, done, c));
    assert Prefixed(p, s.order + [c]) == Prefixed(p, s.order) + [p + c];
    var freed := SortedOf(Freed(g, done, c));
    assert Prefixed(p, s.queue[1..] + freed) == Prefixed(p, s.queue)[1..] + Prefixed(p, freed);
  }

  lemma {:induction false} RunPrefixed(p: string, g: Graph, s: State)
    requires Inv(g, s) && Inv(PrefixedGraph(p, g), PrefixedState(p, s))
    ensures Run(PrefixedGraph(p, g), PrefixedState(p, s)).order == Prefixed(p, Run(g, s).order)
    decreases |g| - |s.order|
  {
    OrderFits(g, s);
    if s.queue != [] {
      StepPrefixed(p, g, s);
      StepKeepsInv(g, s);
      StepKeepsInv(PrefixedGraph(p, g), PrefixedState(p, s));
      RunPrefixed(p, g, Step(g, s));
    }
  }

  /** A prefix common to every key does not change the order: comparing skips it. */
  lemma OrderPrefixed(p: string, g: Graph)
    ensures Order(PrefixedGraph(p, g)) == Prefixed(p, Order(g))
  {
    PrefixedReady(p, g);
    SortedOfPrefixed(p, Ready(g));
    assert Start(PrefixedGraph(p, g)) == PrefixedState(p, Start(g));
    StartKeepsInv(g);
    StartKeepsInv(PrefixedGraph(p, g));
    RunPrefixed(p, g, Start(g));
  }

  // ----- the counting form -----

  /** Requirements with repetitions, as the degree counters see them. */
  type Multigraph = map<string, seq<string>>

  function Adjacent(graph: Multigraph, c: string): seq<string> {
    if c in graph then graph[c] else []
  }

  /** `graph` lists, under each requirement, its dependents as often as they require it. */
  ghost predicate Mirrors(graph: Multigraph, deps: Multigraph) {
    forall c, n :: multiset(Adjacent(graph, c))[n] == multiset(Adjacent(deps, n))[c]
  }

  function Simple(deps: Multigraph): Graph {
    map n | n in deps :: Elems(deps[n])
  }

  /** Recording one requirement on both sides. */
  lemma EdgeKeepsMirror(graph: Multigraph, deps: Multigraph, dep: string, key: string)
    requires Mirrors(graph, deps)
    ensures Mirrors(graph[dep := Adjacent(graph, dep) + [key]], deps[key := Adjacent(deps, key) + [dep]])
  {
    var graph' := graph[dep := Adjacent(graph, dep) + [key]];
    var deps' := deps[key := Adjacent(deps, key) + [dep]];
    forall c, n ensures multiset(Adjacent(graph', c))[n] == multiset(Adjacent(deps', n))[c] {
      assert multiset(Adjacent(graph, c))[n] == multiset(Adjacent(deps, n))[c];
      CountAppended(graph, dep, key, c, n);
      CountAppended(deps, key, dep, n, c);
    }
  }

  lemma CountAppended(m: Multigraph, at: string, x: string, c: string, n: string)
    ensures multiset(Adjacent(m[at := Adjacent(m, at) + [x]], c))[n]
            == multiset(Adjacent(m, c))[n] + if c == at && n == x then 1 else 0
  {
    assert multiset(Adjacent(m, at) + [x]) == multiset(Adjacent(m, at)) + multiset{x};
  }

  /** How many entries of `s` are not yet done. */
  function Outstanding(s: seq<string>, done: set<string>): nat {
    if s == [] then 0 else (if s[0] in done then 0 else 1) + Outstanding(s[1..], done)
  }

  lemma {:induction false} OutstandingDrops(s: seq<string>, done: set<string>, c: string)
    requires c !in done
    ensures Outstanding(s, done) == Outstanding(s, done + {c}) + multiset(s)[c]
  {
    if s != [] {
      OutstandingDrops(s[1..], done, c);
      assert s == [s[0]] + s[1..];
    }
  }

  lemma {:induction false} OutstandingZero(s: seq<string>, done: set<string>)
    ensures Outstanding(s, done) == 0 <==> Elems(s) <= done
  {
    if s != [] {
      OutstandingZero(s[1..], done);
      assert s == [s[0]] + s[1..];
      assert Elems(s) == {s[0]} + Elems(s[1..]);
    }
  }

  lemma {:induction false} OutstandingAll(s: seq<string>)
    ensures Outstanding(s, {}) == |s|
  {
    if s != [] { OutstandingAll(s[1..]); }
  }

  lemma PrefixCount(l: seq<string>, j: nat)
    requires j < |l|
    ensures multiset(l[..j + 1]) == multiset(l[..j]) + multiset{l[j]}
    ensures forall n :: multiset(l[..j + 1])[n] <= multiset(l)[n]
  {
    assert l[..j + 1] == l[..j] + [l[j]];
    assert l == l[..j + 1] + l[j + 1..];
  }

  /** Counting state: every degree is the number of requirements still outstanding. */
  ghost predicate Counts(inDegree: map<string, int>, deps: Multigraph, done: set<string>) {
    inDegree.Keys == deps.Keys && forall n :: n in deps ==> inDegree[n] == Outstanding(deps[n], done)
  }

  /** What the scans record: adjacency mirrors the requirements, and a degree is their number. */
  ghost predicate Records(graph: Multigraph, inDegree: map<string, int>, deps: Multigraph) {
    && Mirrors(graph, deps)
    && inDegree.Keys == deps.Keys
    && forall n :: n in deps ==> inDegree[n] == |deps[n]|
  }

  lemma NothingRecorded()
    ensures Records(map[], map[], map[])
  {}

  lemma RecordEdge(graph: Multigraph, inDegree: map<string, int>, deps: Multigraph, key: string, dep: string)
    requires key in deps && Records(graph, inDegree, deps)
    ensures key in inDegree
    ensures Records(graph[dep := Adjacent(graph, dep) + [key]], inDegree[key := inDegree[key] + 1], deps[key := deps[key] + [dep]])
  {
    EdgeKeepsMirror(graph, deps, dep, key);
  }

  /** Meeting a key for the first time, or again. */
  lemma RecordNode(graph: Multigraph, inDegree: map<string, int>, deps: Multigraph, key: string)
    requires Records(graph, inDegree, deps)
    ensures Records(graph, if key in inDegree then inDegree else inDegree[key := 0], deps[key := Adjacent(deps, key)])
  {
    var deps' := deps[key := Adjacent(deps, key)];
    forall n ensures Adjacent(deps', n) == Adjacent(deps, n) {}
  }

  lemma RecordsCount(graph: Multigraph, inDegree: map<string, int>, deps: Multigraph)
    requires Records(graph, inDegree, deps)
    ensures Mirrors(graph, deps) && Counts(inDegree, deps, {})
  {
    forall n | n in deps ensures inDegree[n] == Outstanding(deps[n], {}) {
      OutstandingAll(deps[n]);
    }
  }

  lemma CurrentEdges(graph: Multigraph, deps: Multigraph, done: set<string>, c: string, n: string)
    requires Mirrors(graph, deps) && c !in done
    ensures multiset(Adjacent(graph, c))[n] == multiset(Adjacent(deps, n))[c]
    ensures Outstanding(Adjacent(deps, n), done)
            == Outstanding(Adjacent(deps, n), done + {c}) + multiset(Adjacent(graph, c))[n]
  {
    OutstandingDrops(Adjacent(deps, n), done, c);
  }

  /** Part way through the dependents of one node: `seen` have been lowered, `ready` have reached zero. */
  ghost predicate Lowering(inDegree: map<string, int>, deps: Multigraph, done: set<string>, seen: seq<string>, ready: seq<string>) {
    && inDegree.Keys == deps.Keys
    && (forall n :: n in deps ==> inDegree[n] == Outstanding(deps[n], done) - multiset(seen)[n])
    && Distinct(ready)
    && (forall n :: n in ready <==> n in seen && n in deps && inDegree[n] == 0)
  }

  lemma LowerOne(inDegree: map<string, int>, deps: Multigraph, done: set<string>, seen: seq<string>, ready: seq<string>, n: string)
    requires Lowering(inDegree, deps, done, seen, ready)
    requires n in deps && multiset(seen)[n] < Outstanding(deps[n], done)
    ensures n !in ready
    ensures var lowered := inDegree[n := inDegree[n] - 1];
            Lowering(lowered, deps, done, seen + [n], if lowered[n] == 0 then ready + [n] else ready)
  {
    var lowered := inDegree[n := inDegree[n] - 1];
    var ready' := if lowered[n] == 0 then ready + [n] else ready;
    assert multiset(seen + [n]) == multiset(seen) + multiset{n};
    assert lowered.Keys == deps.Keys;
    assert forall m :: m in seen + [n] <==> m in seen || m == n;
    assert forall m :: m in ready' <==> m in ready || (m == n && lowered[n] == 0);
  }

  lemma StillOutstanding(graph: Multigraph, deps: Multigraph, done: set<string>, c: string, j: nat)
    requires Mirrors(graph, deps) && c !in done && j < |Adjacent(graph, c)|
    ensures var l := Adjacent(graph, c);
            l[j] in deps && multiset(l[..j])[l[j]] < Outstanding(deps[l[j]], done) && l[..j + 1] == l[..j] + [l[j]]
  {
    var l := Adjacent(graph, c);
    PrefixCount(l, j);
    CurrentEdges(graph, deps, done, c, l[j]);
    assert multiset(l)[l[j]] >= 1;
  }

  lemma LoweredAll(graph: Multigraph, deps: Multigraph, done: set<string>, c: string, inDegree: map<string, int>, ready: seq<string>)
    requires Mirrors(graph, deps) && c !in done
    requires Lowering(inDegree, deps, done, Adjacent(graph, c), ready)
    ensures Counts(inDegree, deps, done + {c})
    ensures Elems(ready) == Freed(Simple(deps), done, c)
  {
    forall n | n in deps ensures inDegree[n] == Outstanding(deps[n], done + {c}) {
      CurrentEdges(graph, deps, done, c, n);
    }
    forall n ensures n in ready <==> n in Freed(Simple(deps), done, c) {
      CurrentEdges(graph, deps, done, c, n);
      assert n in Adjacent(graph, c) <==> multiset(Adjacent(graph, c))[n] > 0;
      if n in deps {
        OutstandingZero(deps[n], done + {c});
        assert c in deps[n] <==> multiset(deps[n])[c] > 0;
      }
    }
  }

  /** The body of the sort: taking `current` lowers its dependents' degrees and collects those that reach zero. */
  method Release(graph: Multigraph, degrees: map<string, int>, current: string, ghost deps: Multigraph, ghost done: set<string>)
    returns (inDegree: map<string, int>, newReady: seq<string>)
    requires Mirrors(graph, deps) && Counts(degrees, deps, done) && current !in done
    ensures Counts(inDegree, deps, done + {current})
    ensures Distinct(newReady) && Elems(newReady) == Freed(Simple(deps), done, current)
  {
    inDegree, newReady := degrees, [];
    var l := Adjacent(graph, current);
    for j := 0 to |l|
      invariant Lowering(inDegree, deps, done, l[..j], newReady)
    {
      var neighbor := l[j];
      StillOutstanding(graph, deps, done, current, j);
      LowerOne(inDegree, deps, done, l[..j], newReady, neighbor);
      inDegree := inDegree[neighbor := inDegree[neighbor] - 1];
      if inDegree[neighbor] == 0 {
        newReady := newReady + [neighbor];
      }
    }
    assert l[..|l|] == l;
    LoweredAll(graph, deps, done, current, inDegree, newReady);
  }

  /** The nodes whose degree is zero, met in whatever order the map is ranged over. */
  method ZeroDegree(inDegree: map<string, int>, positive: bool) returns (found: seq<string>)
    ensures Distinct(found)
    ensures Elems(found) == set n | n in inDegree && (if positive then inDegree[n] > 0 else inDegree[n] == 0)
  {
    found := [];
    var rest := inDegree.Keys;
    while rest != {}
      invariant rest <= inDegree.Keys && Distinct(found)
      invariant forall n :: n in found <==>
                  n in inDegree && n !in rest && (if positive then inDegree[n] > 0 else inDegree[n] == 0)
      decreases rest
    {
      var key :| key in rest;
      if (positive && inDegree[key] > 0) || (!positive && inDegree[key] == 0) {
        found := found + [key];
      }
      rest := rest - {key};
    }
  }

  lemma StartsWithReady(deps: Multigraph, inDegree: map<string, int>, queue: seq<string>)
    requires Counts(inDegree, deps, {})
    requires Distinct(queue) && Elems(queue) == set n | n in inDegree && inDegree[n] == 0
    ensures Sort(queue) == Start(Simple(deps)).queue
  {
    forall n | n in deps ensures inDegree[n] == 0 <==> deps[n] == [] {
      OutstandingZero(deps[n], {});
      assert deps[n] != [] ==> deps[n][0] in Elems(deps[n]);
    }
    forall n | n in deps ensures deps[n] == [] <==> Elems(deps[n]) == {} {
      assert deps[n] != [] ==> deps[n][0] in Elems(deps[n]);
    }
    assert Elems(queue) == Ready(Simple(deps));
    SortDistinct(queue);
  }

  lemma StepRefills(g: Graph, s: State, newReady: seq<string>)
    requires s.queue != []
    requires Distinct(newReady) && Elems(newReady) == Freed(g, Elems(s.order), s.queue[0])
    ensures Step(g, s) ==
            State(s.order + [s.queue[0]], if |newReady| > 0 then s.queue[1..] + Sort(newReady) else s.queue[1..])
  {
    SortDistinct(newReady);
    if newReady == [] {
      assert Elems(newReady) == {};
      assert s.queue[1..] + SortedOf({}) == s.queue[1..];
    }
  }

  lemma LeftOutOutstanding(deps: Multigraph, n: string)
    requires n in deps
    ensures Outstanding(deps[n], Elems(Order(Simple(deps)))) > 0 <==> n !in Order(Simple(deps))
  {
    var g := Simple(deps);
    var order := Order(g);
    OutstandingZero(deps[n], Elems(order));
    OrderTopological(g);
    if n in order {
      var i :| 0 <= i < |order| && order[i] == n;
      assert g[n] <= Elems(order[..i]);
    } else if g[n] <= Elems(order) {
      OrderMaximal(g, n);
    }
  }

  lemma NextIsNew(g: Graph, s: State)
    requires Inv(g, s) && s.queue != []
    ensures s.queue[0] !in Elems(s.order) && |s.order| < |g|
    ensures Elems(s.order + [s.queue[0]]) == Elems(s.order) + {s.queue[0]}
  {
    DistinctParts(s.order, s.queue, s.queue[0]);
    OrderFits(g, s);
  }

  /** One round of the sort is one step of the run. */
  lemma DrainStep(g: Graph, s: State, newReady: seq<string>)
    requires Inv(g, s) && s.queue != []
    requires Distinct(newReady) && Elems(newReady) == Freed(g, Elems(s.order), s.queue[0])
    ensures var t := State(s.order + [s.queue[0]], if |newReady| > 0 then s.queue[1..] + Sort(newReady) else s.queue[1..]);
            Inv(g, t) && Run(g, t) == Run(g, s)
  {
    hide Inv, Sort, Step, Freed;
    StepRefills(g, s, newReady);
    StepKeepsInv(g, s);
  }

  lemma RunEnds(g: Graph, s: State)
    requires Inv(g, s) && s.queue == []
    ensures Run(g, s) == s
  {}

  /** The sort itself: a queue of nodes whose requirements are met, refilled layer by layer. */
  method Drain(graph: Multigraph, degrees: map<string, int>, ghost deps: Multigraph)
    returns (order: seq<string>, inDegree: map<string, int>)
    requires Mirrors(graph, deps) && Counts(degrees, deps, {})
    ensures order == Order(Simple(deps))
    ensures inDegree.Keys == deps.Keys && forall n :: n in deps ==> (inDegree[n] > 0 <==> n !in order)
  {
    hide Counts, Mirrors, Inv, Run, Step, Start, Freed, Simple, Sort, Elems, Distinct, Outstanding;
    ghost var g := Simple(deps);
    inDegree := degrees;
    var queue := ZeroDegree(inDegree, false);
    StartsWithReady(deps, inDegree, queue);
    queue := Sort(queue);
    order := [];
    NothingTaken(g);
    while |queue| > 0
      invariant Counts(inDegree, deps, Elems(order))
      invariant Inv(g, Start(g)) && Inv(g, State(order, queue)) && Run(g, State(order, queue)) == Run(g, Start(g))
      decreases |g| - |order|
    {
      ghost var s := State(order, queue);
      NextIsNew(g, s);
      var current := queue[0];
      queue := queue[1..];
      var newReady;
      inDegree, newReady := Release(graph, inDegree, current, deps, Elems(order));
      order := order + [current];
      DrainStep(g, s, newReady);
      if |newReady| > 0 {
        queue := queue + Sort(newReady);
      }
    }
    RunEnds(g, State(order, queue));
    assert order == Order(g);
    DegreesTellLeftOut(deps, inDegree);
  }

  lemma NothingTaken(g: Graph)
    ensures Inv(g, Start(g)) && Start(g).order == [] && Elems<string>([]) == {}
  {
    StartKeepsInv(g);
  }

  lemma DegreesTellLeftOut(deps: Multigraph, inDegree: map<string, int>)
    requires Counts(inDegree, deps, Elems(Order(Simple(deps))))
    ensures inDegree.Keys == deps.Keys && forall n :: n in deps ==> (inDegree[n] > 0 <==> n !in Order(Simple(deps)))
  {
    hide Order, Simple;
    forall n | n in deps ensures inDegree[n] > 0 <==> n !in Order(Simple(deps)) {
      LeftOutOutstanding(deps, n);
    }
  }
}

/** Shutting down: what Stop does over any order, and exactly when it keeps the active set closed. */
module LifecycleShutdown {
  import opened Lexical
  import opened Graph
  import opened Lifecycle
  import opened LifecycleTheorems
  import opened LifecycleOrders

  /** Stop acts on it. */
  ghost predicate Stoppable(plugins: Plugins, n: string) {
    n in plugins && plugins[n].state in {Active, Failed}
  }

  /** One of the visits to `n` is answered without error. */
  ghost predicate StopsWell(names: seq<string>, ok: Outcomes, n: string) {
    exists i :: 0 <= i < |names| && names[i] == n && ok(i)
  }

  /** One of the visits to `n` is answered with an error, and none before it without. */
  ghost predicate StopsBadly(names: seq<string>, ok: Outcomes, n: string) {
    exists i :: 0 <= i < |names| && names[i] == n && !ok(i) && forall j :: 0 <= j < i && names[j] == n ==> !ok(j)
  }

  ghost predicate NoAbsent(plugins: Plugins, names: seq<string>) {
    forall n :: n in names && n in plugins ==> plugins[n].present
  }

  /** After visiting `names`, which may repeat a name. */
  ghost predicate StopDone(plugins: Plugins, names: seq<string>, ok: Outcomes, r: StopRun) {
    && SameShape(plugins, r.plugins)
    && (forall n :: n in plugins && n in r.plugins && (n !in names || !Stoppable(plugins, n)) ==> r.plugins[n] == plugins[n])
    && (forall n :: n in r.plugins && n in names && Stoppable(plugins, n) ==>
          && r.plugins[n].state == (if StopsWell(names, ok, n) then Stopped else Failed)
          && r.plugins[n].reason == (if StopsBadly(names, ok, n) then StopFailed else plugins[n].reason))
    && (forall n :: n in r.errors <==> Stoppable(plugins, n) && StopsBadly(names, ok, n))
    && (forall n :: n in r.calls <==> n in names && Stoppable(plugins, n))
  }

  /** `q` is `r` after Stop has acted on `n`, answered with `well`. */
  ghost predicate ActedOn(r: StopRun, n: string, well: bool, q: StopRun) {
    && Stoppable(r.plugins, n) && SameShape(r.plugins, q.plugins)
    && (forall x :: x in r.plugins && x != n ==> q.plugins[x] == r.plugins[x])
    && q.plugins[n].state == (if well then Stopped else Failed) && q.calls == r.calls + [n]
    && q.plugins[n].reason == (if well then r.plugins[n].reason else StopFailed)
    && q.errors == (if well then r.errors else r.errors + [n])
  }

  lemma StopOneCases(r: StopRun, n: string, ok: bool)
    requires !r.panicked && (n in r.plugins ==> r.plugins[n].present)
    ensures var q := StopOne(r, n, ok);
            if Stoppable(r.plugins, n) then !q.panicked && ActedOn(r, n, ok, q) else q == r
  {}

  lemma StopsWellAppend(names: seq<string>, n: string, ok: Outcomes, x: string)
    ensures StopsWell(names + [n], ok, x) <==> StopsWell(names, ok, x) || (x == n && ok(|names|))
  {
    var names' := names + [n];
    if i :| 0 <= i < |names| && names[i] == x && ok(i) { assert names'[i] == x; }
    if x == n && ok(|names|) { assert names'[|names|] == x; }
  }

  lemma StopsBadlyAppend(names: seq<string>, n: string, ok: Outcomes, x: string)
    ensures StopsBadly(names + [n], ok, x) <==>
            StopsBadly(names, ok, x) || (x == n && !ok(|names|) && !StopsWell(names, ok, x))
  {
    var names' := names + [n];
    forall i | 0 <= i < |names| ensures names'[i] == names[i] {}
    if i :| 0 <= i < |names| && names[i] == x && !ok(i) && forall j :: 0 <= j < i && names[j] == x ==> !ok(j) {
      assert names'[i] == x;
    }
    if x == n && !ok(|names|) && !StopsWell(names, ok, x) { assert names'[|names|] == x; }
  }

  lemma StopStep(plugins: Plugins, names: seq<string>, ok: Outcomes, r: StopRun, n: string)
    requires StopDone(plugins, names, ok, r) && !r.panicked && (n in plugins ==> plugins[n].present)
    ensures !StopOne(r, n, ok(|names|)).panicked
    ensures StopDone(plugins, names + [n], ok, StopOne(r, n, ok(|names|)))
  {
    hide StopOne, StopDone, StopsWell, StopsBadly, ActedOn;
    assert n in r.plugins ==> r.plugins[n].present by { StopDoneAt(plugins, names, ok, r, n); }
    StopOneCases(r, n, ok(|names|));
    if Stoppable(r.plugins, n) {
      StopStepActs(plugins, names, ok, r, n, StopOne(r, n, ok(|names|)));
    } else {
      StopStepSkips(plugins, names, ok, r, n);
    }
  }

  lemma StopDoneAt(plugins: Plugins, names: seq<string>, ok: Outcomes, r: StopRun, n: string)
    requires StopDone(plugins, names, ok, r)
    ensures n in plugins <==> n in r.plugins
    ensures n in plugins && n in r.plugins ==> r.plugins[n].present == plugins[n].present
    ensures Stoppable(r.plugins, n) ==> Stoppable(plugins, n) && !StopsWell(names, ok, n)
    ensures Stoppable(plugins, n) && n in r.plugins ==> (StopsBadly(names, ok, n) ==> n in names)
    ensures !Stoppable(r.plugins, n) && Stoppable(plugins, n) ==> n in names && StopsWell(names, ok, n)
  {}

  lemma StopStepSkips(plugins: Plugins, names: seq<string>, ok: Outcomes, r: StopRun, n: string)
    requires StopDone(plugins, names, ok, r) && !Stoppable(r.plugins, n)
    ensures StopDone(plugins, names + [n], ok, r)
  {
    StopDoneAt(plugins, names, ok, r, n);
    hide StopsWell, StopsBadly;
    var names' := names + [n];
    forall x
      ensures StopsWell(names', ok, x) <==> StopsWell(names, ok, x) || (x == n && ok(|names|))
      ensures StopsBadly(names', ok, x) <==> StopsBadly(names, ok, x) || (x == n && !ok(|names|) && !StopsWell(names, ok, x))
    {
      StopsWellAppend(names, n, ok, x);
      StopsBadlyAppend(names, n, ok, x);
    }
    assert forall x :: x in names' <==> x in names || x == n;
  }

  lemma StopActsAt(plugins: Plugins, names: seq<string>, ok: Outcomes, r: StopRun, n: string, q: StopRun, x: string)
    requires StopDone(plugins, names, ok, r) && ActedOn(r, n, ok(|names|), q)
    ensures x in plugins && x in q.plugins && (x !in names + [n] || !Stoppable(plugins, x)) ==> q.plugins[x] == plugins[x]
    ensures x in q.plugins && x in names + [n] && Stoppable(plugins, x) ==>
              && q.plugins[x].state == (if StopsWell(names + [n], ok, x) then Stopped else Failed)
              && q.plugins[x].reason == (if StopsBadly(names + [n], ok, x) then StopFailed else plugins[x].reason)
    ensures x in q.errors <==> Stoppable(plugins, x) && StopsBadly(names + [n], ok, x)
    ensures x in q.calls <==> x in names + [n] && Stoppable(plugins, x)
  {
    StopDoneAt(plugins, names, ok, r, n);
    hide StopsWell, StopsBadly;
    StopsWellAppend(names, n, ok, x);
    StopsBadlyAppend(names, n, ok, x);
    assert x in names + [n] <==> x in names || x == n;
  }

  lemma StopStepActs(plugins: Plugins, names: seq<string>, ok: Outcomes, r: StopRun, n: string, q: StopRun)
    requires StopDone(plugins, names, ok, r) && ActedOn(r, n, ok(|names|), q)
    ensures StopDone(plugins, names + [n], ok, q)
  {
    assert SameShape(plugins, q.plugins) by { SameShapeTransitive(plugins, r.plugins, q.plugins); }
    forall x { StopActsAt(plugins, names, ok, r, n, q, x); }
    hide ActedOn, StopsWell, StopsBadly, Stoppable, SameShape;
  }

  lemma {:induction false} StopAllDone(plugins: Plugins, names: seq<string>, ok: Outcomes)
    requires NoAbsent(plugins, names)
    ensures !StopAll(plugins, names, ok).panicked && StopDone(plugins, names, ok, StopAll(plugins, names, ok))
  {
    hide StopOne;
    if names != [] {
      hide StopDone;
      var n := |names| - 1;
      assert names == names[..n] + [names[n]];
      StopAllDone(plugins, names[..n], ok);
      StopStep(plugins, names[..n], ok, StopAll(plugins, names[..n], ok), names[n]);
    }
  }

  lemma {:induction false} AbsentPanics(plugins: Plugins, names: seq<string>, ok: Outcomes)
    requires Settled(plugins) && !NoAbsent(plugins, names)
    ensures StopAll(plugins, names, ok).panicked
  {
    var n := |names| - 1;
    assert names == names[..n] + [names[n]];
    if NoAbsent(plugins, names[..n]) {
      StopAllDone(plugins, names[..n], ok);
      assert names[n] !in names[..n];
    } else {
      AbsentPanics(plugins, names[..n], ok);
    }
  }

  lemma ReversedMembers(order: seq<string>)
    ensures forall x :: x in Reversed(order) <==> x in order
  {
    var r := Reversed(order);
    forall x | x in order ensures x in r {
      var i :| 0 <= i < |order| && order[i] == x;
      assert r[|order| - 1 - i] == x;
    }
  }

  /** Stop reaches a nil plugin object exactly when the order holds an entry that failed to load. */
  lemma StopPanicsIff(plugins: Plugins, order: seq<string>, ok: Outcomes)
    requires Settled(plugins)
    ensures StopAll(plugins, Reversed(order), ok).panicked <==> exists n :: n in order && n in plugins && !plugins[n].present
  {
    hide StopAll, Settled;
    ReversedMembers(order);
    if NoAbsent(plugins, Reversed(order)) {
      StopAllDone(plugins, Reversed(order), ok);
    } else {
      AbsentPanics(plugins, Reversed(order), ok);
    }
  }

  /** A shutdown leaves nothing active and calls `Stop()` on exactly the active and failed plugins of the order. */
  lemma StopEndsAll(plugins: Plugins, order: seq<string>, ok: Outcomes, n: string)
    requires Settled(plugins) && Listed(plugins, order) && NoAbsent(plugins, order)
    ensures var r := StopAll(plugins, Reversed(order), ok);
            && !r.panicked && !ActiveIn(r.plugins, n)
            && (n in r.calls <==> n in order && Stoppable(plugins, n))
            && (ActiveIn(plugins, n) ==> n in r.calls)
  {
    hide StopAll;
    ReversedMembers(order);
    StopAllDone(plugins, Reversed(order), ok);
  }

  // ----- every call and every error, visit by visit -----

  /** The visit at position `i` calls `Stop`: the plugin is active or failed, and no earlier visit has stopped it. */
  ghost predicate Acts(plugins: Plugins, names: seq<string>, ok: Outcomes, i: nat)
    requires i < |names|
  {
    Stoppable(plugins, names[i]) && forall j :: 0 <= j < i && names[j] == names[i] ==> !ok(j)
  }

  /** The names at the positions that are picked, in order. */
  ghost function Picked(names: seq<string>, pick: set<nat>): seq<string> {
    if names == [] then [] else
      var n := |names| - 1;
      Picked(names[..n], pick) + if n in pick then [names[n]] else []
  }

  ghost function ActingVisits(plugins: Plugins, names: seq<string>, ok: Outcomes): set<nat> {
    set i: nat | i < |names| && Acts(plugins, names, ok, i)
  }

  ghost function FailingVisits(plugins: Plugins, names: seq<string>, ok: Outcomes): set<nat> {
    set i: nat | i < |names| && Acts(plugins, names, ok, i) && !ok(i)
  }

  lemma {:induction false} PickedWithin(names: seq<string>, a: set<nat>, b: set<nat>)
    requires forall i: nat :: i < |names| ==> (i in a <==> i in b)
    ensures Picked(names, a) == Picked(names, b)
  {
    if names != [] { PickedWithin(names[..|names| - 1], a, b); }
  }

  lemma ActsInFront(plugins: Plugins, names: seq<string>, ok: Outcomes, i: nat)
    requires names != [] && i < |names| - 1
    ensures Acts(plugins, names[..|names| - 1], ok, i) <==> Acts(plugins, names, ok, i)
  {
    var front := names[..|names| - 1];
    forall j | 0 <= j <= i ensures front[j] == names[j] {}
  }

  lemma ActsLast(plugins: Plugins, names: seq<string>, ok: Outcomes)
    requires names != [] && NoAbsent(plugins, names[..|names| - 1])
    ensures var n := |names| - 1;
            Acts(plugins, names, ok, n) <==> Stoppable(StopAll(plugins, names[..n], ok).plugins, names[n])
  {
    hide StopAll;
    var n := |names| - 1;
    var front, r := names[..n], StopAll(plugins, names[..n], ok);
    StopAllDone(plugins, front, ok);
    StopDoneAt(plugins, front, ok, r, names[n]);
    if Stoppable(plugins, names[n]) {
      forall j | 0 <= j < n ensures front[j] == names[j] {}
      assert StopsWell(front, ok, names[n]) <==> exists j :: 0 <= j < n && names[j] == names[n] && ok(j);
    }
  }

  /** The calls of a shutdown are the visits that act, in order, and its errors those that act and are answered badly. */
  lemma {:induction false} StopVisits(plugins: Plugins, names: seq<string>, ok: Outcomes)
    requires NoAbsent(plugins, names)
    ensures StopAll(plugins, names, ok).calls == Picked(names, ActingVisits(plugins, names, ok))
    ensures StopAll(plugins, names, ok).errors == Picked(names, FailingVisits(plugins, names, ok))
  {
    hide Acts, Stoppable;
    if names != [] {
      var n := |names| - 1;
      assert names == names[..n] + [names[n]];
      StopVisits(plugins, names[..n], ok);
      StopAllDone(plugins, names[..n], ok);
      ActsLast(plugins, names, ok);
      forall i: nat | i < n ensures Acts(plugins, names[..n], ok, i) <==> Acts(plugins, names, ok, i) { ActsInFront(plugins, names, ok, i); }
      PickedWithin(names[..n], ActingVisits(plugins, names[..n], ok), ActingVisits(plugins, names, ok));
      PickedWithin(names[..n], FailingVisits(plugins, names[..n], ok), FailingVisits(plugins, names, ok));
      StopOneCalls(StopAll(plugins, names[..n], ok), names[n], ok(n));
    }
  }

  lemma StopOneCalls(r: StopRun, n: string, ok: bool)
    requires !r.panicked && (n in r.plugins ==> r.plugins[n].present)
    ensures StopOne(r, n, ok).calls == r.calls + if Stoppable(r.plugins, n) then [n] else []
    ensures StopOne(r, n, ok).errors == r.errors + if Stoppable(r.plugins, n) && !ok then [n] else []
  {}

  // ----- the active set while stopping -----

  /** Part way through, the plugins still active are those that were active and have not been visited. */
  lemma ActiveWhileStopping(plugins: Plugins, order: seq<string>, ok: Outcomes, k: nat, n: string)
    requires NoAbsent(plugins, order) && k <= |order|
    ensures var now := StopAll(plugins, Reversed(order)[..k], ok).plugins;
            && (ActiveIn(now, n) <==> ActiveIn(plugins, n) && n !in Reversed(order)[..k])
            && (ActiveIn(now, n) ==> now[n] == plugins[n])
  {
    hide StopAll;
    var names := Reversed(order)[..k];
    ReversedMembers(order);
    assert forall x :: x in names ==> x in Reversed(order);
    StopAllDone(plugins, names, ok);
  }

  /** The shutdown reaches every active plugin before the active plugins it requires. */
  ghost predicate DependentsFirst(plugins: Plugins, order: seq<string>) {
    forall n, d :: ActiveIn(plugins, n) && ActiveIn(plugins, d) && d in Needs(plugins[n]) && d != n ==>
      Before(Reversed(order), n, d)
  }

  /**
   From a closed state, the active set is closed after every single step of a shutdown, whatever the callbacks answer,
   exactly when the shutdown reaches dependents first.
   */
  lemma StopStaysClosedIff(plugins: Plugins, order: seq<string>, ok: Outcomes)
    requires Settled(plugins) && Listed(plugins, order) && NoAbsent(plugins, order) && DepClosed(plugins)
    ensures (forall k :: 0 <= k <= |order| ==> DepClosed(StopAll(plugins, Reversed(order)[..k], ok).plugins))
            <==> DependentsFirst(plugins, order)
  {
    hide StopAll, Needs, First, NoAbsent;
    var names := Reversed(order);
    ReversedMembers(order);
    forall n | ActiveIn(plugins, n) ensures n in names {}
    if DependentsFirst(plugins, order) {
      forall k | 0 <= k <= |order| ensures DepClosed(StopAll(plugins, names[..k], ok).plugins) {
        StaysClosed(plugins, order, ok, k);
      }
    }
    if forall k :: 0 <= k <= |order| ==> DepClosed(StopAll(plugins, names[..k], ok).plugins) {
      forall n, d | ActiveIn(plugins, n) && ActiveIn(plugins, d) && d in Needs(plugins[n]) && d != n
        ensures Before(names, n, d)
      {
        var k := First(names, d) + 1;
        ActiveWhileStopping(plugins, order, ok, k, n);
        ActiveWhileStopping(plugins, order, ok, k, d);
        FirstInPrefix(names, d, k);
        FirstInPrefix(names, n, k);
        assert DepClosed(StopAll(plugins, names[..k], ok).plugins);
        assert names[First(names, d)] != names[First(names, n)];
      }
    }
  }

  lemma StaysClosed(plugins: Plugins, order: seq<string>, ok: Outcomes, k: nat)
    requires NoAbsent(plugins, order) && DepClosed(plugins) && DependentsFirst(plugins, order) && k <= |order|
    ensures DepClosed(StopAll(plugins, Reversed(order)[..k], ok).plugins)
  {
    hide StopAll, Needs, First, NoAbsent;
    var names, now := Reversed(order), StopAll(plugins, Reversed(order)[..k], ok).plugins;
    forall n, d | ActiveIn(now, n) && d in Needs(now[n]) ensures ActiveIn(now, d) {
      ActiveWhileStopping(plugins, order, ok, k, n);
      ActiveWhileStopping(plugins, order, ok, k, d);
      assert ActiveIn(plugins, d);
      if d != n {
        assert Before(names, n, d);
        FirstInPrefix(names, d, k);
        FirstInPrefix(names, n, k);
      }
    }
  }

  /** For an order without repetitions: the requirement stands before its dependent. */
  lemma ReversedBefore(order: seq<string>, n: string, d: string)
    requires Distinct(order) && n in order && d in order
    ensures Before(Reversed(order), n, d) <==> Before(order, d, n)
  {
    ReversedMembers(order);
    var i, j := First(order, n), First(order, d);
    var r := Reversed(order);
    assert r[|order| - 1 - i] == n && r[|order| - 1 - j] == d;
    assert order[|order| - 1 - First(r, n)] == n && order[|order| - 1 - First(r, d)] == d;
  }

  // ----- the order of the calls -----

  /** Plugins are first called in the order in which they are first visited. */
  lemma {:induction false} CallsFollowVisits(plugins: Plugins, names: seq<string>, ok: Outcomes, n: string, d: string)
    requires NoAbsent(plugins, names)
    requires n in StopAll(plugins, names, ok).calls && d in StopAll(plugins, names, ok).calls
    ensures n in names && d in names
    ensures Before(StopAll(plugins, names, ok).calls, n, d) <==> Before(names, n, d)
    decreases |names|
  {
    hide First, StopsWell;
    var k := |names| - 1;
    var front, x := names[..k], names[k];
    assert names == front + [x];
    var r := StopAll(plugins, front, ok);
    StopAllDone(plugins, names, ok);
    StopAllDone(plugins, front, ok);
    FirstAppend(front, x, n);
    FirstAppend(front, x, d);
    if n in r.calls && d in r.calls { CallsFollowVisits(plugins, front, ok, n, d); }
    CallsOfOneMore(plugins, names, ok);
    if StopAll(plugins, names, ok).calls != r.calls {
      FirstAppend(r.calls, x, n);
      FirstAppend(r.calls, x, d);
    }
  }

  lemma CallsOfOneMore(plugins: Plugins, names: seq<string>, ok: Outcomes)
    requires names != []
    ensures var k := |names| - 1;
            var calls, before := StopAll(plugins, names, ok).calls, StopAll(plugins, names[..k], ok).calls;
            calls == before || calls == before + [names[k]]
  {}

  /** Going backwards through the order one meets every plugin before whatever it requires. */
  ghost predicate RequirementsLast(plugins: Plugins, order: seq<string>) {
    forall n, d {:trigger d in Needs(plugins[n])} ::
      n in order && n in plugins && d in Needs(plugins[n]) ==> Before(Reversed(order), n, d)
  }

  lemma {:induction false} PathMeetsLater(plugins: Plugins, order: seq<string>, p: seq<string>)
    requires RequirementsLast(plugins, order) && IsPath(NeedsGraph(plugins), p) && |p| >= 2 && p[0] in order
    ensures Before(Reversed(order), p[0], p[|p| - 1])
  {
    hide Needs, First;
    assert p[0] in NeedsGraph(plugins) && p[0 + 1] in NeedsGraph(plugins)[p[0]];
    assert Before(Reversed(order), p[0], p[1]);
    ReversedMembers(order);
    if |p| > 2 { PathMeetsLater(plugins, order, p[1..]); }
  }

  /** Then a plugin's `Stop()` is first called before that of anything it requires, even indirectly. */
  lemma DependentsStopFirst(plugins: Plugins, order: seq<string>, ok: Outcomes, n: string, d: string)
    requires NoAbsent(plugins, order) && RequirementsLast(plugins, order)
    requires var calls := StopAll(plugins, Reversed(order), ok).calls; n in calls && d in calls
    requires Reaches(NeedsGraph(plugins), n, d)
    ensures Before(StopAll(plugins, Reversed(order), ok).calls, n, d)
  {
    hide StopAll, Needs, First, RequirementsLast;
    ReversedMembers(order);
    CallsFollowVisits(plugins, Reversed(order), ok, n, d);
    var p :| Connects(NeedsGraph(plugins), p, n, d);
    PathMeetsLater(plugins, order, p);
  }
}

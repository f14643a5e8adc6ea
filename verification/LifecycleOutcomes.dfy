/** Dependency declarations spelled out, the exact answer of every hot-plug operation, and the order of the calls in a Start. */
module LifecycleOutcomes {
  import opened Wrappers
  import opened Lexical
  import opened Graph
  import opened Lifecycle
  import opened LifecycleTheorems
  import opened LifecycleOrders
  import Kahn

  // ----- dependency declarations -----

  /** A dependency names `n` exactly when it is `n`, or `n` and a nonempty constraint after the first `@`. */
  lemma ParseIff(dep: string, n: string)
    ensures ParseDependency(dep) == Some(n) <==> '@' !in n && (dep == n || exists c :: c != "" && dep == n + "@" + c)
  {
    var i := AtSign(dep);
    if i < |dep| { assert dep == dep[..i] + "@" + dep[i + 1..]; }
    if i + 1 < |dep| { assert dep[i + 1..] != ""; }
    if '@' !in n && dep == n { NoAtSign(dep); }
    if c :| '@' !in n && c != "" && dep == n + "@" + c { AtSignAfter(n, c); }
  }

  /** It is malformed exactly when nothing follows the first `@`. */
  lemma ParseNone(dep: string)
    ensures ParseDependency(dep).None? <==> exists n :: '@' !in n && dep == n + "@"
  {
    var i := AtSign(dep);
    if i + 1 == |dep| { assert dep == dep[..i] + "@"; }
    if n :| '@' !in n && dep == n + "@" {
      AtSignAfter(n, "");
      assert n + "@" + "" == dep;
    }
  }

  lemma NoAtSign(dep: string)
    requires '@' !in dep
    ensures AtSign(dep) == |dep|
  {}

  lemma AtSignAfter(n: string, c: string)
    requires '@' !in n
    ensures AtSign(n + "@" + c) == |n| && (n + "@" + c)[..|n|] == n
  {
    var dep, i := n + "@" + c, AtSign(n + "@" + c);
    assert dep[|n|] == '@';
    forall j | 0 <= j < |n| ensures dep[j] != '@' { assert dep[j] == n[j]; }
    forall j | 0 <= j < i ensures dep[j] != '@' { assert dep[..i][j] == dep[j]; }
  }

  /** `n` is declared by `info`, well-formed. */
  ghost predicate Declared(info: Info, n: string) {
    exists i :: 0 <= i < |info.manifest.required| && ParseDependency(info.manifest.required[i]) == Some(n)
  }

  /** A plugin needs what it declares; what blocks it besides is the empty name, if a declaration is malformed. */
  lemma NeedsExact(info: Info, n: string)
    ensures n in Needs(info) <==> Declared(info, n)
    ensures n in Blockers(info) <==>
            Declared(info, n) || (n == "" && exists i :: 0 <= i < |info.manifest.required| && ParseDependency(info.manifest.required[i]).None?)
  {
    hide ParseDependency;
    var required := info.manifest.required;
    if n in Needs(info) {
      var dep :| dep in required && ParseDependency(dep).Some? && ParseDependency(dep).value == n;
      var i :| 0 <= i < |required| && required[i] == dep;
    }
    if n in Blockers(info) {
      var dep :| dep in required && DepName(dep) == n;
      var i :| 0 <= i < |required| && required[i] == dep;
      assert ParseDependency(required[i]) == Some(n) || ParseDependency(required[i]).None?;
    }
    forall i | 0 <= i < |required| ensures required[i] in required && DepName(required[i]) in Blockers(info) {}
  }

  // ----- the answers of the hot-plug operations -----

  /** `d` is the first declared requirement that is not active. */
  ghost predicate FirstUnready(plugins: Plugins, required: seq<string>, d: string) {
    exists i :: 0 <= i < |required| && ParseDependency(required[i]) == Some(d) && !ActiveIn(plugins, d)
                && forall j :: 0 <= j < i && ParseDependency(required[j]).Some? ==> ActiveIn(plugins, ParseDependency(required[j]).value)
  }

  lemma {:induction false} FirstInactiveExact(plugins: Plugins, required: seq<string>, d: string)
    ensures FirstInactive(plugins, required) == Some(d) <==> FirstUnready(plugins, required, d)
  {
    hide ParseDependency;
    if required != [] {
      var rest, p := required[1..], ParseDependency(required[0]);
      FirstInactiveExact(plugins, rest, d);
      if p.Some? && !ActiveIn(plugins, p.value) {
        if FirstUnready(plugins, required, d) {
          var i :| 0 <= i < |required| && ParseDependency(required[i]) == Some(d) && !ActiveIn(plugins, d)
                   && forall j :: 0 <= j < i && ParseDependency(required[j]).Some? ==> ActiveIn(plugins, ParseDependency(required[j]).value);
          assert i == 0;
        }
        if p == Some(d) { assert FirstUnready(plugins, required, d); }
      } else {
        if FirstUnready(plugins, required, d) {
          var i :| 0 <= i < |required| && ParseDependency(required[i]) == Some(d) && !ActiveIn(plugins, d)
                   && forall j :: 0 <= j < i && ParseDependency(required[j]).Some? ==> ActiveIn(plugins, ParseDependency(required[j]).value);
          assert rest[i - 1] == required[i];
          forall j | 0 <= j < i - 1 && ParseDependency(rest[j]).Some? ensures ActiveIn(plugins, ParseDependency(rest[j]).value) {
            assert rest[j] == required[j + 1];
          }
        }
        if FirstUnready(plugins, rest, d) {
          var i :| 0 <= i < |rest| && ParseDependency(rest[i]) == Some(d) && !ActiveIn(plugins, d)
                   && forall j :: 0 <= j < i && ParseDependency(rest[j]).Some? ==> ActiveIn(plugins, ParseDependency(rest[j]).value);
          assert required[i + 1] == rest[i];
          forall j | 0 <= j < i + 1 && ParseDependency(required[j]).Some? ensures ActiveIn(plugins, ParseDependency(required[j]).value) {
            if j > 0 { assert rest[j - 1] == required[j]; }
          }
        }
      }
    }
  }

  /** What Init and Start answer decides, once a plugin has got that far. */
  function Attempt(info: Info, initOk: bool, startOk: bool): (Info, PlugResult) {
    if !initOk then (info.(state := Failed, reason := InitFailed), CallbackFailed)
    else if !startOk then (info.(state := Failed, reason := StartFailed), CallbackFailed)
    else (info.(state := Active), Done)
  }

  /** The answer of Enable and the entry it leaves, in every case; a failed plugin is refused whatever its requirements do. */
  lemma EnableOutcome(plugins: Plugins, name: string, initOk: bool, startOk: bool)
    ensures var (now, r) := Enable(plugins, name, initOk, startOk);
            && (name !in plugins ==> r == PluginNotFound && now == plugins)
            && (name in plugins ==>
                  var info := plugins[name];
                  && (info.state !in {Stopped, Failed} ==> r == WrongState(info.state) && now == plugins)
                  && (info.state in {Stopped, Failed} ==>
                        && (forall d :: r == DependencyNotActive(d) <==> FirstUnready(plugins, info.manifest.required, d))
                        && (r.DependencyNotActive? ==> now == plugins)
                        && (!r.DependencyNotActive? && info.state == Failed ==> r == WrongState(Failed) && now == plugins)
                        && (!r.DependencyNotActive? && info.state == Stopped ==>
                              (now, r) == (plugins[name := Attempt(info, initOk, startOk).0], Attempt(info, initOk, startOk).1))))
  {
    hide ParseDependency, FirstUnready;
    if name in plugins {
      forall d { FirstInactiveExact(plugins, plugins[name].manifest.required, d); }
    }
  }

  lemma RetryOutcome(plugins: Plugins, name: string, initOk: bool, startOk: bool)
    ensures var (now, r) := Retry(plugins, name, initOk, startOk);
            && (name !in plugins ==> r == PluginNotFound && now == plugins)
            && (name in plugins ==>
                  var info := plugins[name];
                  && (info.state != Failed ==> r == WrongState(info.state) && now == plugins)
                  && (info.state == Failed ==>
                        && (forall d :: r == DependencyNotActive(d) <==> FirstUnready(plugins, info.manifest.required, d))
                        && (r.DependencyNotActive? ==> now == plugins)
                        && (!r.DependencyNotActive? && !info.present ==> r == NilPlugin && now == plugins[name := info.(state := Starting)])
                        && (!r.DependencyNotActive? && info.present ==>
                              (now, r) == (plugins[name := Attempt(info, initOk, startOk).0], Attempt(info, initOk, startOk).1))))
  {
    hide ParseDependency, FirstUnready;
    if name in plugins {
      forall d { FirstInactiveExact(plugins, plugins[name].manifest.required, d); }
    }
  }

  /** Another plugin of the order is active and declares `name`, or has a malformed declaration while `name` is empty. */
  ghost predicate Dependent(plugins: Plugins, other: string, name: string) {
    other != name && ActiveIn(plugins, other) && name in Blockers(plugins[other])
  }

  ghost predicate FirstDependentIs(plugins: Plugins, order: seq<string>, name: string, other: string) {
    exists i :: 0 <= i < |order| && order[i] == other && Dependent(plugins, other, name)
                && forall j :: 0 <= j < i ==> !Dependent(plugins, order[j], name)
  }

  lemma {:induction false} FirstDependentExact(plugins: Plugins, order: seq<string>, name: string, other: string)
    ensures FirstDependent(plugins, order, name) == Some(other) <==> FirstDependentIs(plugins, order, name, other)
  {
    hide DepName, Dependent;
    if order != [] {
      var rest := order[1..];
      FirstDependentExact(plugins, rest, name, other);
      DependentHere(plugins, order[0], name);
      if FirstDependentIs(plugins, order, name, other) {
        var i :| 0 <= i < |order| && order[i] == other && Dependent(plugins, other, name)
                 && forall j :: 0 <= j < i ==> !Dependent(plugins, order[j], name);
        if i > 0 {
          assert rest[i - 1] == order[i];
          forall j | 0 <= j < i - 1 ensures !Dependent(plugins, rest[j], name) { assert rest[j] == order[j + 1]; }
        }
      }
      if FirstDependentIs(plugins, rest, name, other) && !Dependent(plugins, order[0], name) {
        var i :| 0 <= i < |rest| && rest[i] == other && Dependent(plugins, other, name)
                 && forall j :: 0 <= j < i ==> !Dependent(plugins, rest[j], name);
        assert order[i + 1] == rest[i];
        forall j | 0 <= j < i + 1 ensures !Dependent(plugins, order[j], name) { if j > 0 { assert rest[j - 1] == order[j]; } }
      }
      if Dependent(plugins, order[0], name) && order[0] == other { assert FirstDependentIs(plugins, order, name, other); }
    }
  }

  lemma DependentHere(plugins: Plugins, other: string, name: string)
    ensures Dependent(plugins, other, name) <==>
            other in plugins && other != name && plugins[other].state == Active && DependsOn(plugins[other], name)
  {
    hide DepName;
  }

  lemma DisableOutcome(plugins: Plugins, order: seq<string>, name: string, stopOk: bool)
    ensures var (now, r) := Disable(plugins, order, name, stopOk);
            && (name !in plugins ==> r == PluginNotFound && now == plugins)
            && (name in plugins ==>
                  var info := plugins[name];
                  && (info.state != Active ==> r == WrongState(info.state) && now == plugins)
                  && (info.state == Active ==>
                        && (forall other :: r == ActiveDependent(other) <==> FirstDependentIs(plugins, order, name, other))
                        && (r.ActiveDependent? ==> now == plugins)
                        && (!r.ActiveDependent? && stopOk ==> r == Done && now == plugins[name := info.(state := Stopped)])
                        && (!r.ActiveDependent? && !stopOk ==>
                              r == CallbackFailed && now == plugins[name := info.(state := Failed, reason := StopFailed)])))
  {
    hide DepName, FirstDependentIs;
    forall other { FirstDependentExact(plugins, order, name, other); }
  }

  // ----- the order of the calls in a Start -----

  lemma OneMoreVisit(before: seq<string>, now: seq<string>, front: seq<string>, x: string, a: string, b: string)
    requires (now == before || now == before + [x]) && a in now && b in now
    requires forall y :: y in {a, b} ==> (y in before <==> y in front)
    requires a in before && b in before ==> (Before(before, a, b) <==> Before(front, a, b))
    ensures a in front + [x] && b in front + [x] && (Before(now, a, b) <==> Before(front + [x], a, b))
  {
    hide First;
    FirstAppend(front, x, a);
    FirstAppend(front, x, b);
    if now != before {
      FirstAppend(before, x, a);
      FirstAppend(before, x, b);
    }
  }

  lemma InitCalled(plugins: Plugins, order: seq<string>, initOk: Outcomes, k: nat, y: string)
    requires Settled(plugins) && k <= |order|
    ensures y in InitAll(plugins, order[..k], initOk).calls <==> y in order[..k] && InitAsked(plugins, order, initOk, y)
  {
    hide InitAll, InitAsked, InitInfo, Settled;
    InitAllDone(plugins, order, initOk, k);
  }

  /** Phase 1 calls `Init` in the order of the visits. */
  lemma {:induction false} InitsFollowOrder(plugins: Plugins, order: seq<string>, initOk: Outcomes, k: nat, a: string, b: string)
    requires Settled(plugins) && k <= |order|
    requires a in InitAll(plugins, order[..k], initOk).calls && b in InitAll(plugins, order[..k], initOk).calls
    ensures a in order[..k] && b in order[..k]
    ensures Before(InitAll(plugins, order[..k], initOk).calls, a, b) <==> Before(order[..k], a, b)
    decreases k
  {
    hide First, InitAsked, Settled, InitAll, Before;
    InitCalled(plugins, order, initOk, k, a);
    InitCalled(plugins, order, initOk, k, b);
    var front, x := order[..k - 1], order[k - 1];
    InitCalled(plugins, order, initOk, k - 1, a);
    InitCalled(plugins, order, initOk, k - 1, b);
    assert order[..k] == front + [x] && order[..k][..k - 1] == front;
    var before, now := InitAll(plugins, front, initOk).calls, InitAll(plugins, order[..k], initOk).calls;
    InitCallsOfOneMore(plugins, order[..k], initOk);
    if a in before && b in before { InitsFollowOrder(plugins, order, initOk, k - 1, a, b); }
    OneMoreVisit(before, now, front, x, a, b);
  }

  lemma InitCallsOfOneMore(plugins: Plugins, order: seq<string>, initOk: Outcomes)
    requires order != []
    ensures var k := |order| - 1;
            var calls, before := InitAll(plugins, order, initOk).calls, InitAll(plugins, order[..k], initOk).calls;
            calls == before || calls == before + [order[k]]
  {
    hide HasFailed;
  }

  lemma StartCalled(p: Phase, order: seq<string>, startOk: Outcomes, k: nat, y: string)
    requires k <= |order| && p.calls == []
    ensures y in StartAll(p, order[..k], startOk).calls <==> y in order[..k] && y in p.plugins && p.plugins[y].state == Starting
  {
    hide StartAll, StartInfo;
    StartAllDone(p, order, startOk, k);
  }

  lemma {:induction false} StartsFollowOrder(p: Phase, order: seq<string>, startOk: Outcomes, k: nat, a: string, b: string)
    requires k <= |order| && p.calls == []
    requires a in StartAll(p, order[..k], startOk).calls && b in StartAll(p, order[..k], startOk).calls
    ensures a in order[..k] && b in order[..k]
    ensures Before(StartAll(p, order[..k], startOk).calls, a, b) <==> Before(order[..k], a, b)
    decreases k
  {
    hide First, StartAll, Before;
    StartCalled(p, order, startOk, k, a);
    StartCalled(p, order, startOk, k, b);
    var front, x := order[..k - 1], order[k - 1];
    StartCalled(p, order, startOk, k - 1, a);
    StartCalled(p, order, startOk, k - 1, b);
    assert order[..k] == front + [x] && order[..k][..k - 1] == front;
    var before, now := StartAll(p, front, startOk).calls, StartAll(p, order[..k], startOk).calls;
    StartCallsOfOneMore(p, order[..k], startOk);
    if a in before && b in before { StartsFollowOrder(p, order, startOk, k - 1, a, b); }
    OneMoreVisit(before, now, front, x, a, b);
  }

  lemma StartCallsOfOneMore(p: Phase, order: seq<string>, startOk: Outcomes)
    requires order != []
    ensures var k := |order| - 1;
            var calls, before := StartAll(p, order, startOk).calls, StartAll(p, order[..k], startOk).calls;
            calls == before || calls == before + [order[k]]
  {}

  /** `Init` and `Start` are each called in the order of the visits. */
  lemma StartCallsFollowOrder(plugins: Plugins, order: seq<string>, initOk: Outcomes, startOk: Outcomes, a: string, b: string)
    requires Settled(plugins)
    ensures var inits := InitAll(plugins, order, initOk).calls;
            a in inits && b in inits ==> (Before(inits, a, b) <==> Before(order, a, b))
    ensures var starts := StartCalls(plugins, order, initOk, startOk);
            a in starts && b in starts ==> (Before(starts, a, b) <==> Before(order, a, b))
  {
    hide InitAll, StartAll, First, Settled;
    assert order[..|order|] == order;
    var first := InitAll(plugins, order, initOk).(calls := []);
    if a in InitAll(plugins, order, initOk).calls && b in InitAll(plugins, order, initOk).calls {
      InitsFollowOrder(plugins, order, initOk, |order|, a, b);
    }
    if a in StartAll(first, order, startOk).calls && b in StartAll(first, order, startOk).calls {
      StartsFollowOrder(first, order, startOk, |order|, a, b);
    }
  }

  // ----- the manager's own sort -----

  /** What a plugin asks to come after, where it is loaded. */
  ghost function Follows(plugins: Plugins, n: string): set<string>
    requires n in plugins
  {
    set i, a | 0 <= i < |plugins[n].manifest.after| && ParseDependency(plugins[n].manifest.after[i]) == Some(a) && a in plugins :: a
  }

  lemma FollowsExact(plugins: Plugins, n: string)
    requires n in plugins
    ensures PluginGraph(plugins)[n] == Needs(plugins[n]) + Follows(plugins, n)
  {
    hide ParseDependency;
    var after := plugins[n].manifest.after;
    forall a ensures a in Follows(plugins, n) <==> a in Named(after) * plugins.Keys {
      if a in Named(after) * plugins.Keys {
        var d :| d in after && ParseDependency(d).Some? && ParseDependency(d).value == a;
        var i :| 0 <= i < |after| && after[i] == d;
      }
      if a in Follows(plugins, n) {
        var i :| 0 <= i < |after| && ParseDependency(after[i]) == Some(a);
        assert after[i] in after;
      }
    }
  }

  /**
   Without a resolver an order exists exactly when all requirements are loaded and nothing requires, or asks to follow, its
   way back to itself; it then puts after each plugin's requirements and after what the plugin asks to follow.
   */
  lemma FallbackExact(plugins: Plugins)
    ensures (exists order :: BuiltOrder(plugins, None, Success(order))) <==>
            (forall n, d :: n in plugins && d in Needs(plugins[n]) ==> d in plugins) && Acyclic(PluginGraph(plugins))
    ensures forall order, n, d :: BuiltOrder(plugins, None, Success(order)) && n in plugins && d in Needs(plugins[n]) + Follows(plugins, n) ==>
              Before(order, d, n)
  {
    hide Kahn.Order, Needs, Named, Acyclic, First, Follows;
    var g := PluginGraph(plugins);
    assert g.Keys == plugins.Keys && |g.Keys| == |g| && |plugins.Keys| == |plugins|;
    if RequirementsLoaded(plugins) {
      GraphClosed(plugins);
      Kahn.OrderCompleteIff(g);
      if Acyclic(g) { assert BuiltOrder(plugins, None, Success(Kahn.Order(g))); }
    }
    forall order, n, d | BuiltOrder(plugins, None, Success(order)) && n in plugins && d in Needs(plugins[n]) + Follows(plugins, n)
      ensures Before(order, d, n)
    {
      FallbackCovers(plugins, order);
      FollowsExact(plugins, n);
      assert n in Elems(order);
      EdgeIsEarlier(g, order, n, d);
    }
  }

  lemma GraphClosed(plugins: Plugins)
    requires RequirementsLoaded(plugins)
    ensures Closed(PluginGraph(plugins))
  {
    hide Needs, Named;
  }
}

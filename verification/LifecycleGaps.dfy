/** The inputs on which Start and Stop leave a plugin active above a requirement that is not. */
module LifecycleGaps {
  import opened Wrappers
  import opened Lexical
  import opened Lifecycle
  import opened LifecycleTheorems
  import opened LifecycleShutdown
  import opened LifecycleRuns

  function Plain(name: string, required: seq<string>): Info {
    Info(true, Manifest(name, "native", required, []), Registered, NoError)
  }

  /** `b` requires `a`. */
  function Two(): Plugins {
    map["a" := Plain("a", []), "b" := Plain("b", ["a"])]
  }

  lemma PlainNeeds()
    ensures Needs(Plain("a", [])) == {} && Needs(Plain("b", ["a"])) == {"a"}
    ensures Blockers(Plain("a", [])) == {} && Blockers(Plain("b", ["a"])) == {"a"}
  {
    assert AtSign("a") == 1;
    assert ParseDependency("a") == Some("a") && DepName("a") == "a";
    var b := Plain("b", ["a"]);
    assert "a" in b.manifest.required;
    assert Needs(b) == {"a"} && Blockers(b) == {"a"};
  }

  lemma TwoStart(order: seq<string>, initOk: Outcomes, startOk: Outcomes)
    requires Elems(order) == {"a", "b"}
    ensures Settled(Two()) && DepClosed(Two()) && "a" in order && "b" in order
    ensures var now := Started(Two(), order, initOk, startOk);
            && now.Keys == {"a", "b"}
            && (ActiveIn(now, "a") <==> Answers(order, initOk, "a") && Answers(order, startOk, "a"))
            && (ActiveIn(now, "b") <==> Answers(order, initOk, "b") && Answers(order, startOk, "b")
                                        && (Before(order, "a", "b") ==> Answers(order, initOk, "a")))
            && Needs(now["b"]) == {"a"} && Needs(now["a"]) == {}
            && (forall n :: n in now ==> now[n].present && now[n].state in {Active, Failed})
  {
    hide Started, Needs, Blockers, SoundBelow, StartGraph, First, StartCalls, InitAll;
    var p := Two();
    PlainNeeds();
    assert "a" in Elems(order) && "b" in Elems(order);
    StartGraphNode(p, order, "a");
    StartGraphNode(p, order, "b");
    SoundUnfold(p, order, initOk, "a");
    SoundUnfold(p, order, initOk, "b");
    StartKeys(p, order, initOk, startOk);
    StartExact(p, order, initOk, startOk, "a");
    StartExact(p, order, initOk, startOk, "b");
    var now := Started(p, order, initOk, startOk);
    SameNeeds(now["b"], p["b"]);
    SameNeeds(now["a"], p["a"]);
  }

  lemma TwoOrders()
    ensures BuiltOrder(Two(), Some(Success(["a", "b"])), Success(["a", "b"])) && Elems(["a", "b"]) == {"a", "b"}
    ensures BuiltOrder(Two(), Some(Success([])), Success(["b", "a"])) && Elems(["b", "a"]) == {"a", "b"}
    ensures First(["a", "b"], "a") == 0 && First(["a", "b"], "b") == 1
    ensures First(["b", "a"], "b") == 0 && First(["b", "a"], "a") == 1
  {
    var ab, ba, a: seq<string> := ["a", "b"], ["b", "a"], ["a"];
    assert ab[..1] == a && a[..0] == [];
    assert Loaded(Two(), a) == a;
    assert Loaded(Two(), ab) == a + [ab[1]] == ab;
    assert ab[..2] == ab && ab[2..] == [];
    FirstAt(ab, 0);
    FirstAt(ab, 1);
    FirstAt(ba, 0);
    FirstAt(ba, 1);
    assert ba[..0] == [] && ba[0..] == ba;
    assert Elems(ba) == Two().Keys - Elems([]);
    assert Two().Keys - Elems(ab) == {};
  }

  /** Start does not look at requirements again in its second phase: `b` runs although the `Start()` of `a` has failed. */
  lemma StartFailureLeavesGap()
    ensures var second: Outcomes := (i: nat) => i == 1;
            && Settled(Two()) && DepClosed(Two()) && BuiltOrder(Two(), Some(Success(["a", "b"])), Success(["a", "b"]))
            && !DepClosed(Started(Two(), ["a", "b"], (i: nat) => true, second))
  {
    hide Started, Needs, BuiltOrder, First;
    var yes: Outcomes, second: Outcomes := (i: nat) => true, (i: nat) => i == 1;
    TwoOrders();
    TwoStart(["a", "b"], yes, second);
    var now := Started(Two(), ["a", "b"], yes, second);
    assert ActiveIn(now, "b") && "a" in Needs(now["b"]) && !ActiveIn(now, "a");
  }

  /**
   A resolver that does not know the plugins leaves their order open. `b` is initialised before the `a` it requires, and
   runs although the `Init` of `a` then fails; every requirement is loaded and no `Start()` fails.
   */
  lemma LateFailureLeavesGap()
    ensures var first: Outcomes := (i: nat) => i == 0;
            && Settled(Two()) && DepClosed(Two()) && BuiltOrder(Two(), Some(Success([])), Success(["b", "a"]))
            && RequirementsLoaded(Two()) && !DepClosed(Started(Two(), ["b", "a"], first, (i: nat) => true))
  {
    hide Started, Needs, BuiltOrder, First;
    var yes: Outcomes, first: Outcomes := (i: nat) => true, (i: nat) => i == 0;
    TwoOrders();
    PlainNeeds();
    TwoStart(["b", "a"], first, yes);
    var now := Started(Two(), ["b", "a"], first, yes);
    assert ActiveIn(now, "b") && "a" in Needs(now["b"]) && !ActiveIn(now, "a");
  }

  /**
   Such an order also stops plugins out of order: all callbacks succeed, both plugins run, and after the first step of the
   shutdown `b` is active above the stopped `a`.
   */
  lemma StopOutOfOrder()
    ensures var yes: Outcomes := (i: nat) => true;
            var order := ["b", "a"];
            var now := Started(Two(), order, yes, yes);
            && BuiltOrder(Two(), Some(Success([])), Success(order))
            && Settled(now) && Listed(now, order) && NoAbsent(now, order) && DepClosed(now)
            && !DepClosed(StopAll(now, Reversed(order)[..1], yes).plugins)
  {
    hide Started, Needs, BuiltOrder, First, StopAll;
    var yes: Outcomes := (i: nat) => true;
    var order := ["b", "a"];
    TwoOrders();
    TwoStart(order, yes, yes);
    var now := Started(Two(), order, yes, yes);
    ActiveWhileStopping(now, order, yes, 1, "a");
    ActiveWhileStopping(now, order, yes, 1, "b");
    assert Reversed(order)[..1] == ["a"];
    var then' := StopAll(now, Reversed(order)[..1], yes).plugins;
    assert ActiveIn(then', "b") && "a" in Needs(then'["b"]) && !ActiveIn(then', "a");
  }

  /** With a resolver an unloaded requirement does not stop Start: `b` runs without the `a` it requires. */
  lemma UnloadedRequirementLeavesGap()
    ensures var plugins := map["b" := Plain("b", ["a"])];
            && Settled(plugins) && DepClosed(plugins) && BuiltOrder(plugins, Some(Success(["a", "b"])), Success(["b"]))
            && !DepClosed(Started(plugins, ["b"], (i: nat) => true, (i: nat) => true))
  {
    var plugins: Plugins := map["b" := Plain("b", ["a"])];
    var order := ["b"];
    var yes: Outcomes := (i: nat) => true;
    LoneOrder(plugins);
    hide InitAll, Started, StartCalls, Needs, BuiltOrder, Blockers, SoundBelow, StartGraph;
    PlainNeeds();
    FirstAt(order, 0);
    SoundUnfold(plugins, order, yes, "b");
    StartGraphNode(plugins, order, "b");
    StartKeys(plugins, order, yes, yes);
    StartExact(plugins, order, yes, yes, "b");
    var now := Started(plugins, order, yes, yes);
    SameNeeds(now["b"], plugins["b"]);
    assert ActiveIn(now, "b") && "a" in Needs(now["b"]) && !ActiveIn(now, "a");
  }

  lemma LoneOrder(plugins: Plugins)
    requires plugins == map["b" := Plain("b", ["a"])]
    ensures BuiltOrder(plugins, Some(Success(["a", "b"])), Success(["b"]))
  {
    hide Needs;
    var names, first, order: seq<string> := ["a", "b"], ["a"], ["b"];
    assert names[..1] == first && first[..0] == [];
    assert Loaded(plugins, first) == [];
    assert Loaded(plugins, names) == [] + [names[1]] == order;
    assert plugins.Keys - Elems(names) == {};
  }

  /**
   A plugin fails to load, the manager is started through a resolver that does not know it, and is stopped: Stop calls the
   nil plugin object.
   */
  lemma StopReachesNilPlugin(initOk: Outcomes, startOk: Outcomes, stopOk: Outcomes)
    ensures var ops := [OpLoad([Entry(Manifest("a", "native", [], []), Some(true), false)]),
                        OpStart(Some(Success([])), Success(["a"]), initOk, startOk), OpStop(stopOk)];
            SaneRun(ops) && !Run(ops[..2]).down && Run(ops).down
  {
    hide Started, StopAll, BuiltOrder, Base;
    var e := Entry(Manifest("a", "native", [], []), Some(true), false);
    var ops := [OpLoad([e]), OpStart(Some(Success([])), Success(["a"]), initOk, startOk), OpStop(stopOk)];
    var loaded: Plugins := map["a" := Info(false, e.manifest, Failed, LoadFailed)];
    assert [e][1..] == [] && LoadAll(map[], [e]) == LoadOne(map[], e) == loaded;
    RunUnfold(ops, 0);
    RunUnfold(ops, 1);
    RunUnfold(ops, 2);
    assert Run(ops[..0]) == Sys(map[], [], false);
    assert Run(ops[..1]) == Sys(loaded, [], false);
    assert ops[..3] == ops;
    LoneAbsentOrder(loaded);
    assert SaneRun(ops) by { SaneThree(ops); }
    assert HasAbsent(Run(ops[..1]).plugins) && LastStart(ops, 2, 1);
    RunsGoDownIff(ops, 2);
  }

  lemma LoneAbsentOrder(plugins: Plugins)
    requires plugins.Keys == {"a"}
    ensures BuiltOrder(plugins, Some(Success([])), Success(["a"]))
  {
    var order: seq<string> := ["a"];
    assert order[..0] == [] && order[0..] == order && Elems(order) == plugins.Keys - Elems([]);
  }

  lemma SaneThree(ops: seq<Op>)
    requires |ops| == 3 && !ops[0].OpStart? && Sane(Run(ops[..1]), ops[1]) && !ops[2].OpStart?
    ensures SaneRun(ops)
  {
    hide BuiltOrder, Run;
  }
}

/** What Start does to a settled plugin table, for every order in which it may visit the plugins. */
module LifecycleTheorems {
  import opened Lexical
  import opened Graph
  import opened Lifecycle

  ghost predicate ActiveIn(plugins: Plugins, n: string) {
    n in plugins && plugins[n].state == Active
  }

  /** Every active plugin's requirements are active. */
  ghost predicate DepClosed(plugins: Plugins) {
    forall n, d :: ActiveIn(plugins, n) && d in Needs(plugins[n]) ==> ActiveIn(plugins, d)
  }

  /** Between operations no plugin is in a passing state, and only load failures lack a plugin object. */
  ghost predicate Settled(plugins: Plugins) {
    forall n :: n in plugins ==>
      plugins[n].state in {Registered, Active, Stopped, Failed} && (!plugins[n].present ==> plugins[n].state == Failed)
  }

  /** Every plugin that has ever been started is in the order. */
  ghost predicate Listed(plugins: Plugins, order: seq<string>) {
    forall n :: n in plugins && plugins[n].present && plugins[n].state != Registered ==> n in order
  }

  ghost predicate SameShape(a: Plugins, b: Plugins) {
    a.Keys == b.Keys
    && forall n :: n in a && n in b ==> a[n].manifest == b[n].manifest && a[n].present == b[n].present
  }

  lemma SameShapeTransitive(a: Plugins, b: Plugins, c: Plugins)
    requires SameShape(a, b) && SameShape(b, c)
    ensures SameShape(a, c)
  {}

  lemma SameNeeds(a: Info, b: Info)
    requires a.manifest == b.manifest
    ensures Needs(a) == Needs(b)
  {}

  /** Where a plugin comes in the order decides which answers it gives; a repeated name counts where it first occurs. */
  ghost predicate Before(order: seq<string>, d: string, n: string) {
    d in order && n in order && First(order, d) < First(order, n)
  }

  ghost predicate Answers(order: seq<string>, ok: Outcomes, n: string) {
    n in order && ok(First(order, n))
  }

  // ----- which plugins come up, told from the table before Start and the answers -----

  /** Start visits it: it is loaded and not running. */
  ghost predicate Idle(plugins: Plugins, n: string) {
    n in plugins && plugins[n].state in {Registered, Stopped}
  }

  /** The names whose failure blocks a plugin: its requirements, and `""` if one of them is malformed. */
  ghost function Blockers(info: Info): set<string> {
    set dep | dep in info.manifest.required :: DepName(dep)
  }

  /** From an idle plugin to the loaded plugins it requires that are visited before it. */
  ghost function StartGraph(plugins: Plugins, order: seq<string>): Graph {
    map n | n in plugins :: set d | d in Blockers(plugins[n]) && d in plugins && Idle(plugins, n) && Before(order, d, n)
  }

  /** Active already, or idle and its `Init` succeeds. */
  ghost predicate Fit(plugins: Plugins, order: seq<string>, initOk: Outcomes, q: string) {
    ActiveIn(plugins, q) || (Idle(plugins, q) && Answers(order, initOk, q))
  }

  /** Everything that `n` leads to in the start graph is fit. */
  ghost predicate SoundBelow(plugins: Plugins, order: seq<string>, initOk: Outcomes, n: string) {
    forall q :: Reaches(StartGraph(plugins, order), n, q) ==> Fit(plugins, order, initOk, q)
  }

  ghost predicate Sound(plugins: Plugins, order: seq<string>, initOk: Outcomes, n: string) {
    Fit(plugins, order, initOk, n) && SoundBelow(plugins, order, initOk, n)
  }

  lemma SoundUnfold(plugins: Plugins, order: seq<string>, initOk: Outcomes, n: string)
    requires n in plugins
    ensures SoundBelow(plugins, order, initOk, n)
            <==> forall d :: d in StartGraph(plugins, order)[n] ==> Sound(plugins, order, initOk, d)
  {
    hide StartGraph, Fit, Reaches;
    var g := StartGraph(plugins, order);
    assert n in g by { StartGraphNode(plugins, order, n); }
    if SoundBelow(plugins, order, initOk, n) {
      forall d | d in g[n] ensures Sound(plugins, order, initOk, d) {
        ReachesEdge(g, n, d);
        forall q | Reaches(g, d, q) ensures Fit(plugins, order, initOk, q) { ReachesTransitive(g, n, d, q); }
      }
    }
    if forall d :: d in g[n] ==> Sound(plugins, order, initOk, d) {
      forall q | Reaches(g, n, q) ensures Fit(plugins, order, initOk, q) {
        var d := ReachesUnfold(g, n, q);
        assert Sound(plugins, order, initOk, d);
      }
    }
  }

  lemma StartGraphNode(plugins: Plugins, order: seq<string>, n: string)
    requires n in plugins
    ensures n in StartGraph(plugins, order)
    ensures forall d :: d in StartGraph(plugins, order)[n] <==>
              d in Blockers(plugins[n]) && d in plugins && Idle(plugins, n) && Before(order, d, n)
  {
    hide Blockers;
  }

  /** A running or failed plugin is sound exactly when it runs. */
  lemma SettledSound(plugins: Plugins, order: seq<string>, initOk: Outcomes, n: string)
    requires n in plugins && !Idle(plugins, n)
    ensures Sound(plugins, order, initOk, n) <==> ActiveIn(plugins, n)
  {
    hide StartGraph, Reaches;
    SoundUnfold(plugins, order, initOk, n);
    StartGraphNode(plugins, order, n);
  }

  // ----- phase 1 -----

  /** What phase 1 makes of a plugin of the order. */
  ghost function InitInfo(plugins: Plugins, order: seq<string>, initOk: Outcomes, n: string): Info
    requires n in plugins
  {
    if !Idle(plugins, n) then plugins[n]
    else if Sound(plugins, order, initOk, n) then plugins[n].(state := Starting)
    else plugins[n].(state := Failed, reason := if SoundBelow(plugins, order, initOk, n) then InitFailed else DependencyFailed)
  }

  ghost predicate InitAsked(plugins: Plugins, order: seq<string>, initOk: Outcomes, n: string) {
    Idle(plugins, n) && SoundBelow(plugins, order, initOk, n)
  }

  /** Phase 1 after the first `k` positions. */
  ghost predicate InitDone(plugins: Plugins, order: seq<string>, initOk: Outcomes, k: nat, p: Phase)
    requires k <= |order|
  {
    && SameShape(plugins, p.plugins)
    && (forall n :: n in plugins && n in p.plugins ==>
          p.plugins[n] == if n in order[..k] then InitInfo(plugins, order, initOk, n) else plugins[n])
    && (forall n :: n in p.failed <==> n in order[..k] && n in p.plugins && p.plugins[n].state == Failed)
    && (forall n :: n in p.calls <==> n in order[..k] && InitAsked(plugins, order, initOk, n))
    && Distinct(p.calls)
  }

  lemma FailedIsUnsound(plugins: Plugins, order: seq<string>, initOk: Outcomes, d: string)
    requires Settled(plugins) && d in plugins
    ensures InitInfo(plugins, order, initOk, d).state == Failed <==> !Sound(plugins, order, initOk, d)
  {
    hide Sound;
    if !Idle(plugins, d) { SettledSound(plugins, order, initOk, d); }
  }

  /** At the first visit, a plugin is blocked exactly when something it leads to is not fit. */
  lemma BlockedIffUnsound(plugins: Plugins, order: seq<string>, initOk: Outcomes, k: nat, p: Phase)
    requires Settled(plugins) && k < |order| && InitDone(plugins, order, initOk, k, p)
    requires order[k] !in order[..k] && Idle(plugins, order[k])
    ensures HasFailed(plugins[order[k]], p.failed) <==> !SoundBelow(plugins, order, initOk, order[k])
  {
    hide Sound, SoundBelow, Blockers, StartGraph, InitAsked, InitInfo, DepName;
    var n := order[k];
    FirstAt(order, k);
    SoundUnfold(plugins, order, initOk, n);
    StartGraphNode(plugins, order, n);
    forall d ensures d in StartGraph(plugins, order)[n] <==> d in Blockers(plugins[n]) && d in plugins && d in order[..k] {
      if d in order { FirstInPrefix(order, d, k); }
    }
    forall d | d in plugins { FailedIsUnsound(plugins, order, initOk, d); }
    HasFailedMeans(plugins[n], p.failed);
  }

  lemma HasFailedMeans(info: Info, failed: seq<string>)
    ensures HasFailed(info, failed) <==> exists d :: d in Blockers(info) && d in failed
  {
    hide DepName;
    if dep :| dep in info.manifest.required && DepName(dep) in failed {
      assert DepName(dep) in Blockers(info);
    }
  }

  /** What one round of phase 1 does to the plugin it visits, and that it leaves the others alone. */
  lemma InitOneCases(p: Phase, n: string, ok: bool)
    requires n in p.plugins && p.plugins[n].state in {Registered, Active, Stopped, Failed, Starting}
    ensures var q, info := InitOne(p, n, ok), p.plugins[n];
            && SameShape(p.plugins, q.plugins)
            && (forall m :: m in p.plugins && m != n ==> q.plugins[m] == p.plugins[m])
            && (info.state in {Active, Starting} ==> q == p)
            && (info.state == Failed ==> q == p.(failed := p.failed + [n]))
            && (info.state in {Registered, Stopped} ==>
                  && q.plugins[n] == (if HasFailed(info, p.failed) then info.(state := Failed, reason := DependencyFailed)
                                      else if !ok then info.(state := Failed, reason := InitFailed) else info.(state := Starting))
                  && q.failed == (if HasFailed(info, p.failed) || !ok then p.failed + [n] else p.failed)
                  && q.calls == (if HasFailed(info, p.failed) then p.calls else p.calls + [n]))
  {
    hide HasFailed;
  }

  lemma InitFirstVisit(plugins: Plugins, order: seq<string>, initOk: Outcomes, k: nat, p: Phase)
    requires Settled(plugins) && k < |order| && InitDone(plugins, order, initOk, k, p)
    requires order[k] in plugins && order[k] !in order[..k]
    ensures var n, q := order[k], InitOne(p, order[k], initOk(k));
            && n in q.plugins && q.plugins[n] == InitInfo(plugins, order, initOk, n)
            && q.failed == (if q.plugins[n].state == Failed then p.failed + [n] else p.failed)
            && q.calls == (if InitAsked(plugins, order, initOk, n) then p.calls + [n] else p.calls)
            && SameShape(p.plugins, q.plugins) && forall m :: m in p.plugins && m != n ==> q.plugins[m] == p.plugins[m]
  {
    var n := order[k];
    FirstAt(order, k);
    if Idle(plugins, n) { BlockedIffUnsound(plugins, order, initOk, k, p); }
    hide InitOne, HasFailed, SoundBelow, First, InitDone;
    assert n in p.plugins && p.plugins[n] == plugins[n] by { UntouchedYet(plugins, order, initOk, k, p, n); }
    InitOneCases(p, n, initOk(k));
    assert Idle(plugins, n) ==> (Fit(plugins, order, initOk, n) <==> initOk(k));
  }

  lemma UntouchedYet(plugins: Plugins, order: seq<string>, initOk: Outcomes, k: nat, p: Phase, n: string)
    requires k <= |order| && InitDone(plugins, order, initOk, k, p) && n in plugins && n !in order[..k]
    ensures n in p.plugins && p.plugins[n] == plugins[n] && n !in p.failed && n !in p.calls
  {
    hide InitInfo, InitAsked;
  }

  lemma InitStepFirst(plugins: Plugins, order: seq<string>, initOk: Outcomes, k: nat, p: Phase)
    requires Settled(plugins) && k < |order| && InitDone(plugins, order, initOk, k, p)
    requires order[k] in plugins && order[k] !in order[..k]
    ensures InitDone(plugins, order, initOk, k + 1, InitOne(p, order[k], initOk(k)))
  {
    hide InitOne, InitInfo, InitAsked, Idle;
    var n, q := order[k], InitOne(p, order[k], initOk(k));
    assert order[..k + 1] == order[..k] + [n];
    InitFirstVisit(plugins, order, initOk, k, p);
    UntouchedYet(plugins, order, initOk, k, p, n);
    SameShapeTransitive(plugins, p.plugins, q.plugins);
    assert forall m :: m in order[..k + 1] <==> m in order[..k] || m == n;
    forall m ensures m in q.calls <==> m in order[..k + 1] && InitAsked(plugins, order, initOk, m) {}
    forall m ensures m in q.failed <==> m in order[..k + 1] && m in q.plugins && q.plugins[m].state == Failed {
      if m != n && m in p.plugins { assert q.plugins[m] == p.plugins[m]; }
    }
    assert Distinct(q.calls);
  }

  lemma InitStepAgain(plugins: Plugins, order: seq<string>, initOk: Outcomes, k: nat, p: Phase)
    requires Settled(plugins) && k < |order| && InitDone(plugins, order, initOk, k, p)
    requires order[k] in plugins && order[k] in order[..k]
    ensures InitDone(plugins, order, initOk, k + 1, InitOne(p, order[k], initOk(k)))
  {
    hide InitOne, HasFailed, Sound, InitAsked;
    var n := order[k];
    assert order[..k + 1] == order[..k] + [n];
    InitOneCases(p, n, initOk(k));
    assert forall m :: m in order[..k + 1] <==> m in order[..k];
  }

  lemma InitStep(plugins: Plugins, order: seq<string>, initOk: Outcomes, k: nat, p: Phase)
    requires Settled(plugins) && k < |order| && InitDone(plugins, order, initOk, k, p)
    ensures InitDone(plugins, order, initOk, k + 1, InitOne(p, order[k], initOk(k)))
  {
    var n := order[k];
    if n !in plugins {
      hide InitInfo, InitAsked;
      assert order[..k + 1] == order[..k] + [n];
      InitOneUnknown(p, n, initOk(k));
      assert forall m :: m in plugins ==> (m in order[..k + 1] <==> m in order[..k]);
      UnknownNotAsked(plugins, order, initOk, n);
    } else if n in order[..k] {
      InitStepAgain(plugins, order, initOk, k, p);
    } else {
      InitStepFirst(plugins, order, initOk, k, p);
    }
  }

  lemma UnknownNotAsked(plugins: Plugins, order: seq<string>, initOk: Outcomes, n: string)
    requires n !in plugins
    ensures !InitAsked(plugins, order, initOk, n)
  {}

  lemma InitOneUnknown(p: Phase, n: string, ok: bool)
    requires n !in p.plugins
    ensures InitOne(p, n, ok) == p
  {}

  /** Phase 1 as a whole, over any order: the state of every plugin, the failed list and the `Init` calls. */
  lemma {:induction false} InitAllDone(plugins: Plugins, order: seq<string>, initOk: Outcomes, k: nat)
    requires Settled(plugins) && k <= |order|
    ensures InitDone(plugins, order, initOk, k, InitAll(plugins, order[..k], initOk))
  {
    hide Settled, InitOne, InitDone;
    if k == 0 {
      NothingInitialised(plugins, order, initOk);
    } else {
      InitAllDone(plugins, order, initOk, k - 1);
      InitStep(plugins, order, initOk, k - 1, InitAll(plugins, order[..k - 1], initOk));
      assert order[..k][..k - 1] == order[..k - 1];
    }
  }

  lemma NothingInitialised(plugins: Plugins, order: seq<string>, initOk: Outcomes)
    ensures InitDone(plugins, order, initOk, 0, Phase(plugins, [], []))
  {}

  // ----- phase 2 -----

  /** What phase 2 makes of a plugin of the order. */
  ghost function StartInfo(info: Info, ok: bool): Info {
    if info.state != Starting then info else if ok then info.(state := Active) else info.(state := Failed, reason := StartFailed)
  }

  /** Phase 2 after the first `k` positions, from the table that phase 1 left. */
  ghost predicate StartDone(mid: Plugins, order: seq<string>, startOk: Outcomes, k: nat, p: Phase)
    requires k <= |order|
  {
    && SameShape(mid, p.plugins)
    && (forall n :: n in mid && n in p.plugins ==>
          p.plugins[n] == if n in order[..k] then StartInfo(mid[n], Answers(order, startOk, n)) else mid[n])
    && (forall n :: n in p.calls <==> n in order[..k] && n in mid && mid[n].state == Starting)
  }

  lemma StartOneCases(p: Phase, n: string, ok: bool)
    ensures var q := StartOne(p, n, ok);
            if n !in p.plugins || p.plugins[n].state != Starting then q == p else
            && SameShape(p.plugins, q.plugins) && (forall m :: m in p.plugins && m != n ==> q.plugins[m] == p.plugins[m])
            && q.plugins[n] == StartInfo(p.plugins[n], ok) && q.calls == p.calls + [n]
  {}

  lemma StartStep(mid: Plugins, order: seq<string>, startOk: Outcomes, k: nat, p: Phase)
    requires k < |order| && StartDone(mid, order, startOk, k, p)
    ensures StartDone(mid, order, startOk, k + 1, StartOne(p, order[k], startOk(k)))
  {
    var n, q := order[k], StartOne(p, order[k], startOk(k));
    assert order[..k + 1] == order[..k] + [n];
    if n !in order[..k] { FirstAt(order, k); }
    assert n !in order[..k] ==> (Answers(order, startOk, n) <==> startOk(k));
    hide First, Answers, StartOne;
    StartOneCases(p, n, startOk(k));
    if n in p.plugins && p.plugins[n].state == Starting {
      assert n !in order[..k] && p.plugins[n] == mid[n];
      SameShapeTransitive(mid, p.plugins, q.plugins);
    }
    assert forall m :: m in order[..k + 1] <==> m in order[..k] || m == n;
  }

  lemma {:induction false} StartAllDone(p: Phase, order: seq<string>, startOk: Outcomes, k: nat)
    requires k <= |order| && p.calls == []
    ensures StartDone(p.plugins, order, startOk, k, StartAll(p, order[..k], startOk))
  {
    if k > 0 {
      hide StartDone, StartOne;
      StartAllDone(p, order, startOk, k - 1);
      StartStep(p.plugins, order, startOk, k - 1, StartAll(p, order[..k - 1], startOk));
      assert order[..k][..k - 1] == order[..k - 1];
    }
  }

  // ----- Start as a whole -----

  /** Phase 1 gets it ready and its `Start()` succeeds. */
  ghost predicate ComesUp(plugins: Plugins, order: seq<string>, initOk: Outcomes, startOk: Outcomes, n: string) {
    Idle(plugins, n) && Sound(plugins, order, initOk, n) && Answers(order, startOk, n)
  }

  ghost function StartCalls(plugins: Plugins, order: seq<string>, initOk: Outcomes, startOk: Outcomes): seq<string> {
    StartAll(InitAll(plugins, order, initOk).(calls := []), order, startOk).calls
  }

  lemma SoundSplit(plugins: Plugins, order: seq<string>, initOk: Outcomes, n: string)
    requires Idle(plugins, n)
    ensures Sound(plugins, order, initOk, n) <==> Answers(order, initOk, n) && SoundBelow(plugins, order, initOk, n)
  {
    hide SoundBelow;
  }

  /**
   Start over any order, from any settled table: an idle plugin of the order becomes active if it comes up and failed if
   not, every other plugin is left alone, and `Init` and `Start` are called on exactly the plugins described.
   */
  lemma StartExact(plugins: Plugins, order: seq<string>, initOk: Outcomes, startOk: Outcomes, n: string)
    requires Settled(plugins) && n in plugins
    ensures var now := Started(plugins, order, initOk, startOk);
            && n in now && now[n].manifest == plugins[n].manifest && now[n].present == plugins[n].present
            && (n in order && Idle(plugins, n) ==>
                  now[n] == if ComesUp(plugins, order, initOk, startOk, n) then plugins[n].(state := Active)
                            else plugins[n].(state := Failed, reason := if !SoundBelow(plugins, order, initOk, n) then DependencyFailed
                                                                        else if !Answers(order, initOk, n) then InitFailed
                                                                        else StartFailed))
            && (n !in order || !Idle(plugins, n) ==> now[n] == plugins[n])
    ensures n in InitAll(plugins, order, initOk).calls <==> n in order && InitAsked(plugins, order, initOk, n)
    ensures n in StartCalls(plugins, order, initOk, startOk)
            <==> n in order && Idle(plugins, n) && Sound(plugins, order, initOk, n)
  {
    if Idle(plugins, n) { SoundSplit(plugins, order, initOk, n); }
    hide InitAll, StartAll, Sound, SoundBelow, InitAsked, Answers, Settled;
    assert order[..|order|] == order;
    var first := InitAll(plugins, order, initOk);
    InitAllDone(plugins, order, initOk, |order|);
    StartAllDone(first.(calls := []), order, startOk, |order|);
  }

  lemma StartKeys(plugins: Plugins, order: seq<string>, initOk: Outcomes, startOk: Outcomes)
    requires Settled(plugins)
    ensures Started(plugins, order, initOk, startOk).Keys == plugins.Keys
    ensures Distinct(InitAll(plugins, order, initOk).calls)
  {
    hide InitAll, StartAll, Settled, InitInfo, InitAsked;
    assert order[..|order|] == order;
    var first := InitAll(plugins, order, initOk);
    InitAllDone(plugins, order, initOk, |order|);
    StartAllDone(first.(calls := []), order, startOk, |order|);
  }

  lemma ActiveAfterStart(plugins: Plugins, order: seq<string>, initOk: Outcomes, startOk: Outcomes, n: string)
    requires Settled(plugins) && Elems(order) == plugins.Keys
    ensures ActiveIn(Started(plugins, order, initOk, startOk), n)
            <==> ActiveIn(plugins, n) || ComesUp(plugins, order, initOk, startOk, n)
    ensures ActiveIn(Started(plugins, order, initOk, startOk), n) ==>
              n in plugins && Needs(Started(plugins, order, initOk, startOk)[n]) == Needs(plugins[n])
  {
    hide Started, Needs, Sound, InitAll, StartCalls, Answers, InitAsked;
    StartKeys(plugins, order, initOk, startOk);
    if n in plugins {
      assert n in Elems(order);
      StartExact(plugins, order, initOk, startOk, n);
      SameNeeds(Started(plugins, order, initOk, startOk)[n], plugins[n]);
    }
  }

  // ----- when Start keeps the active set closed -----

  /**
   Start opens a gap between a plugin and its requirement `d`: `d` is not loaded, its `Start()` fails, or it is visited
   later and neither runs nor gets through phase 1.
   */
  ghost predicate Gap(plugins: Plugins, order: seq<string>, initOk: Outcomes, startOk: Outcomes, n: string, d: string) {
    || d !in plugins
    || (Idle(plugins, d) && !Answers(order, startOk, d))
    || (d != n && !Before(order, d, n) && !Sound(plugins, order, initOk, d))
  }

  ghost predicate NoGap(plugins: Plugins, order: seq<string>, initOk: Outcomes, startOk: Outcomes) {
    forall n, d :: ComesUp(plugins, order, initOk, startOk, n) && d in Needs(plugins[n]) ==>
      !Gap(plugins, order, initOk, startOk, n, d)
  }

  lemma NeedsAreBlockers(info: Info)
    ensures Needs(info) <= Blockers(info)
  {
    hide ParseDependency;
    forall d | d in Needs(info) ensures d in Blockers(info) {
      var dep :| dep in info.manifest.required && ParseDependency(dep).Some? && ParseDependency(dep).value == d;
      assert DepName(dep) == d;
    }
  }

  /** A plugin comes up above a requirement that does not run afterwards exactly where there is a gap. */
  lemma GapExact(plugins: Plugins, order: seq<string>, initOk: Outcomes, startOk: Outcomes, n: string, d: string)
    requires Settled(plugins) && Elems(order) == plugins.Keys
    requires ComesUp(plugins, order, initOk, startOk, n) && d in Needs(plugins[n])
    ensures ActiveIn(plugins, d) || ComesUp(plugins, order, initOk, startOk, d)
            <==> !Gap(plugins, order, initOk, startOk, n, d)
  {
    hide Needs, SoundBelow, StartGraph, First, Blockers;
    if d in plugins {
      NeedsAreBlockers(plugins[n]);
      SoundUnfold(plugins, order, initOk, n);
      StartGraphNode(plugins, order, n);
      if !Idle(plugins, d) { SettledSound(plugins, order, initOk, d); }
    }
  }

  /** From a closed state, over any order of the loaded plugins, Start leaves the active set closed exactly when it opens no gap. */
  lemma StartKeepsClosedIff(plugins: Plugins, order: seq<string>, initOk: Outcomes, startOk: Outcomes)
    requires Settled(plugins) && DepClosed(plugins) && Elems(order) == plugins.Keys
    ensures DepClosed(Started(plugins, order, initOk, startOk)) <==> NoGap(plugins, order, initOk, startOk)
  {
    hide Started, Needs, ComesUp, Settled, Gap;
    var now := Started(plugins, order, initOk, startOk);
    forall n { ActiveAfterStart(plugins, order, initOk, startOk, n); }
    if NoGap(plugins, order, initOk, startOk) {
      forall n, d | ActiveIn(now, n) && d in Needs(now[n]) ensures ActiveIn(now, d) {
        if ActiveIn(plugins, n) {
          assert ActiveIn(plugins, d);
        } else {
          GapExact(plugins, order, initOk, startOk, n, d);
        }
      }
    } else {
      var n, d :| ComesUp(plugins, order, initOk, startOk, n) && d in Needs(plugins[n]) && Gap(plugins, order, initOk, startOk, n, d);
      GapExact(plugins, order, initOk, startOk, n, d);
      assert ActiveIn(now, n) && d in Needs(now[n]);
    }
  }
}

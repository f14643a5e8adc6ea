/** Invariants over every run of the lifecycle manager, with and without a cross-type resolver. */
module LifecycleRuns {
  import opened Wrappers
  import opened Lexical
  import opened Lifecycle
  import opened LifecycleTheorems
  import opened LifecycleOrders
  import opened LifecycleShutdown

  // ----- the state between operations -----

  /** `down` once an operation has called a nil plugin object; nothing is said about the manager after that. */
  datatype Sys = Sys(plugins: Plugins, order: seq<string>, down: bool)

  /** What Enable, Disable and Retry rely on. */
  ghost predicate Base(s: Sys) {
    Settled(s.plugins) && Listed(s.plugins, s.order)
  }

  /** `OpStart` records what the resolver answers, if there is one, and the order or error that comes of it. */
  datatype Op =
    | OpLoad(entries: seq<Entry>)
    | OpStart(resolver: Option<Result<seq<string>, ()>>, built: Result<seq<string>, OrderError>, initOk: Outcomes, startOk: Outcomes)
    | OpStop(ok: Outcomes)
    | OpEnable(name: string, initAnswer: bool, startAnswer: bool)
    | OpDisable(name: string, stopAnswer: bool)
    | OpRetry(name: string, initAnswer: bool, startAnswer: bool)

  ghost function Apply(s: Sys, op: Op): Sys {
    if s.down then s else
      match op
      case OpLoad(entries) => s.(plugins := LoadAll(s.plugins, entries))
      case OpStart(resolver, built, initOk, startOk) =>
        if built.Failure? then s else Sys(Started(s.plugins, built.value, initOk, startOk), built.value, false)
      case OpStop(ok) =>
        var r := StopAll(s.plugins, Reversed(s.order), ok);
        Sys(r.plugins, s.order, r.panicked)
      case OpEnable(name, i, st) => s.(plugins := Enable(s.plugins, name, i, st).0)
      case OpDisable(name, st) => s.(plugins := Disable(s.plugins, s.order, name, st).0)
      case OpRetry(name, i, st) =>
        var (now, r) := Retry(s.plugins, name, i, st);
        Sys(now, s.order, r == NilPlugin)
  }

  /** The order, or the error, is one that can be built here. */
  ghost predicate Sane(s: Sys, op: Op) {
    op.OpStart? && !s.down ==> BuiltOrder(s.plugins, op.resolver, op.built)
  }

  // ----- loading -----

  ghost predicate Extends(a: Plugins, b: Plugins) {
    && (forall n :: n in a ==> n in b && b[n] == a[n])
    && (forall n :: n in b && n !in a ==> b[n].state == (if b[n].present then Registered else Failed))
  }

  lemma {:induction false} LoadExtends(plugins: Plugins, entries: seq<Entry>)
    ensures Extends(plugins, LoadAll(plugins, entries))
    decreases |entries|
  {
    if entries != [] && entries[0].enabled.Some? {
      var e := entries[0];
      assert e in entries;
      LoadExtends(LoadOne(plugins, e), entries[1..]);
    }
  }

  lemma ExtendsKeepsBase(s: Sys, now: Plugins)
    requires Base(s) && Extends(s.plugins, now)
    ensures Base(s.(plugins := now))
  {}

  lemma ExtendsKeepsClosed(a: Plugins, b: Plugins)
    requires DepClosed(a) && Extends(a, b)
    ensures DepClosed(b)
  {
    hide Needs;
    forall n, d | ActiveIn(b, n) && d in Needs(b[n]) ensures ActiveIn(b, d) {
      assert ActiveIn(a, n) && b[n] == a[n];
      assert ActiveIn(a, d);
    }
  }

  lemma LoadKeepsInvariants(s: Sys, entries: seq<Entry>)
    requires Base(s) && !s.down
    ensures Base(Apply(s, OpLoad(entries)))
    ensures DepClosed(s.plugins) ==> DepClosed(Apply(s, OpLoad(entries)).plugins)
  {
    hide LoadAll, DepClosed, Base, Extends;
    LoadExtends(s.plugins, entries);
    var now := LoadAll(s.plugins, entries);
    ExtendsKeepsBase(s, now);
    if DepClosed(s.plugins) { ExtendsKeepsClosed(s.plugins, now); }
  }

  // ----- starting and stopping -----

  lemma StartKeepsBase(s: Sys, op: Op)
    requires Base(s) && !s.down && op.OpStart? && Sane(s, op)
    ensures Base(Apply(s, op))
  {
    hide InitAll, Started, StartCalls, ComesUp, InitAsked, Sound, BuiltOrder;
    if op.built.Success? {
      var order := op.built.value;
      BuiltOrderCovers(s.plugins, op.resolver, order);
      StartKeys(s.plugins, order, op.initOk, op.startOk);
      var now := Started(s.plugins, order, op.initOk, op.startOk);
      forall n | n in now
        ensures now[n].state in {Active, Failed} && (!now[n].present ==> now[n].state == Failed) && n in order
      {
        assert n in Elems(order);
        StartExact(s.plugins, order, op.initOk, op.startOk, n);
      }
    }
  }

  /** A Start opens no gap. */
  ghost predicate OpensNoGap(s: Sys, op: Op) {
    op.OpStart? && op.built.Success? ==> NoGap(s.plugins, op.built.value, op.initOk, op.startOk)
  }

  lemma StartKeepsClosed(s: Sys, op: Op)
    requires Base(s) && !s.down && DepClosed(s.plugins) && op.OpStart? && Sane(s, op)
    ensures DepClosed(Apply(s, op).plugins) <==> OpensNoGap(s, op)
  {
    hide Started, NoGap, DepClosed, Settled, Listed, BuiltOrder;
    if op.built.Success? {
      BuiltOrderCovers(s.plugins, op.resolver, op.built.value);
      StartKeepsClosedIff(s.plugins, op.built.value, op.initOk, op.startOk);
    }
  }

  /** Stop goes down exactly when the order holds an entry without a plugin object. */
  lemma StopKeepsInvariants(s: Sys, ok: Outcomes)
    requires Base(s) && !s.down
    ensures var t := Apply(s, OpStop(ok));
            && (t.down <==> !NoAbsent(s.plugins, s.order))
            && (!t.down ==> Base(t) && DepClosed(t.plugins))
  {
    hide StopAll, StopsWell, Needs;
    StopPanicsIff(s.plugins, s.order, ok);
    if NoAbsent(s.plugins, s.order) {
      var r := StopAll(s.plugins, Reversed(s.order), ok);
      ReversedMembers(s.order);
      StopAllDone(s.plugins, Reversed(s.order), ok);
      forall n ensures !ActiveIn(r.plugins, n) { StopEndsAll(s.plugins, s.order, ok, n); }
    }
  }

  // ----- enabling, disabling, retrying -----

  lemma {:induction false} FirstInactiveNone(plugins: Plugins, required: seq<string>)
    ensures FirstInactive(plugins, required).None? <==> forall d :: d in Named(required) ==> ActiveIn(plugins, d)
  {
    hide ParseDependency;
    if required != [] {
      FirstInactiveNone(plugins, required[1..]);
      assert required == [required[0]] + required[1..];
      forall d ensures d in Named(required) <==> d in Named(required[1..]) || ParseDependency(required[0]) == Some(d) {}
    }
  }

  lemma DependsOnIff(info: Info, name: string)
    ensures DependsOn(info, name) <==> name in Blockers(info)
  {
    hide DepName;
  }

  lemma {:induction false} FirstDependentNone(plugins: Plugins, order: seq<string>, name: string)
    ensures FirstDependent(plugins, order, name).None? <==>
            forall n :: n in order && n != name && ActiveIn(plugins, n) ==> name !in Blockers(plugins[n])
  {
    hide DependsOn, Blockers;
    if order != [] {
      if order[0] in plugins { DependsOnIff(plugins[order[0]], name); }
      FirstDependentNone(plugins, order[1..], name);
      assert order == [order[0]] + order[1..];
    }
  }

  /** Changing one present, started plugin to a settled state. */
  lemma ChangeKeepsBase(s: Sys, name: string, info: Info)
    requires Base(s) && name in s.plugins && s.plugins[name].present && s.plugins[name].state != Registered
    requires info.present && info.state in {Active, Stopped, Failed}
    ensures Base(s.(plugins := s.plugins[name := info]))
  {}

  lemma ActivateKeepsClosed(plugins: Plugins, name: string, info: Info)
    requires DepClosed(plugins) && name in plugins && plugins[name].state != Active
    requires info.manifest == plugins[name].manifest
    requires forall d :: d in Needs(plugins[name]) ==> ActiveIn(plugins, d)
    ensures DepClosed(plugins[name := info])
  {
    hide Needs;
    SameNeeds(info, plugins[name]);
    var now := plugins[name := info];
    forall n, d | ActiveIn(now, n) && d in Needs(now[n]) ensures ActiveIn(now, d) {
      assert ActiveIn(plugins, d) by { if n != name { assert ActiveIn(plugins, n) && d in Needs(plugins[n]); } }
    }
  }

  lemma EnableKeepsInvariants(s: Sys, name: string, i: bool, st: bool)
    requires Base(s) && !s.down
    ensures Base(Apply(s, OpEnable(name, i, st)))
    ensures DepClosed(s.plugins) ==> DepClosed(Apply(s, OpEnable(name, i, st)).plugins)
  {
    hide Listed, DepClosed, Named;
    if Enable(s.plugins, name, i, st).1 in {Done, CallbackFailed} {
      var info := s.plugins[name];
      FirstInactiveNone(s.plugins, info.manifest.required);
      ChangeKeepsBase(s, name, Activated(info, i, st));
      if DepClosed(s.plugins) { ActivateKeepsClosed(s.plugins, name, Activated(info, i, st)); }
    }
  }

  /** Retry goes down exactly on an entry without a plugin object whose requirements are all active. */
  lemma RetryKeepsInvariants(s: Sys, name: string, i: bool, st: bool)
    requires Base(s) && !s.down
    ensures var t := Apply(s, OpRetry(name, i, st));
            && (t.down <==> RetriesAbsent(s.plugins, name))
            && (!t.down ==> Base(t) && (DepClosed(s.plugins) ==> DepClosed(t.plugins)))
  {
    hide Listed, DepClosed, Named;
    if name in s.plugins { FirstInactiveNone(s.plugins, s.plugins[name].manifest.required); }
    if Retry(s.plugins, name, i, st).1 in {Done, CallbackFailed} {
      var info := s.plugins[name];
      ChangeKeepsBase(s, name, Activated(info, i, st));
      if DepClosed(s.plugins) { ActivateKeepsClosed(s.plugins, name, Activated(info, i, st)); }
    }
  }

  ghost predicate Ready(plugins: Plugins, name: string) {
    name in plugins && forall d :: d in Needs(plugins[name]) ==> ActiveIn(plugins, d)
  }

  ghost predicate RetriesAbsent(plugins: Plugins, name: string) {
    name in plugins && !plugins[name].present && Ready(plugins, name)
  }

  lemma PresentIfActive(plugins: Plugins, n: string)
    requires Settled(plugins) && ActiveIn(plugins, n)
    ensures plugins[n].present
  {}

  /** Disable relies on the order holding every active plugin: those are the only ones it looks at. */
  lemma DisableKeepsInvariants(s: Sys, name: string, st: bool)
    requires Base(s) && !s.down
    ensures Base(Apply(s, OpDisable(name, st)))
    ensures DepClosed(s.plugins) ==> DepClosed(Apply(s, OpDisable(name, st)).plugins)
  {
    hide Needs, DependsOn, Blockers;
    if Disable(s.plugins, s.order, name, st).1 in {Done, CallbackFailed} {
      var info := s.plugins[name];
      var info' := if st then info.(state := Stopped) else Blame(info, StopFailed);
      FirstDependentNone(s.plugins, s.order, name);
      ChangeKeepsBase(s, name, info');
      var now := s.plugins[name := info'];
      if DepClosed(s.plugins) {
        forall n, d | ActiveIn(now, n) && d in Needs(now[n]) ensures ActiveIn(now, d) {
          assert n != name && ActiveIn(s.plugins, n);
          PresentIfActive(s.plugins, n);
          NeedsAreBlockers(s.plugins[n]);
          assert ActiveIn(s.plugins, d) && d != name;
        }
      }
    }
  }

  ghost predicate OnlyChanges(before: Plugins, after: Plugins, name: string) {
    before.Keys == after.Keys && forall n :: n in before && n in after && n != name ==> after[n] == before[n]
  }

  /**
   Enable and Retry succeed on a stopped, or failed, plugin whose requirements are all active and whose callbacks succeed.
   Retry on a failed entry without a plugin object stops half-way if its requirements are active.
   */
  lemma EnableRetryExact(plugins: Plugins, name: string, i: bool, st: bool)
    requires Settled(plugins) && name in plugins
    ensures var (enabled, e) := Enable(plugins, name, i, st);
            var (retried, r) := Retry(plugins, name, i, st);
            && (e == Done <==> plugins[name].state == Stopped && Ready(plugins, name) && i && st)
            && (r == Done <==> plugins[name].state == Failed && plugins[name].present && Ready(plugins, name) && i && st)
            && (r == NilPlugin <==> RetriesAbsent(plugins, name))
            && OnlyChanges(plugins, enabled, name) && OnlyChanges(plugins, retried, name)
            && enabled[name].state == (if e == Done then Active else if e == CallbackFailed then Failed else plugins[name].state)
            && retried[name].state == (if r == Done then Active else if r == NilPlugin then Starting else plugins[name].state)
  {
    hide ParseDependency;
    FirstInactiveNone(plugins, plugins[name].manifest.required);
  }

  /** Disable succeeds on an active plugin that no other active plugin requires, wherever in the manager that is loaded. */
  lemma DisableExact(s: Sys, name: string, st: bool)
    requires Base(s) && name in s.plugins
    ensures var free := forall n :: n in s.plugins && n != name && ActiveIn(s.plugins, n) ==> name !in Blockers(s.plugins[n]);
            var (now, d) := Disable(s.plugins, s.order, name, st);
            && (d == Done <==> ActiveIn(s.plugins, name) && free && st)
            && OnlyChanges(s.plugins, now, name)
            && now[name].state == (if d == Done then Stopped else if d == CallbackFailed then Failed else s.plugins[name].state)
  {
    hide DependsOn, Blockers;
    FirstDependentNone(s.plugins, s.order, name);
    forall n | n in s.plugins && ActiveIn(s.plugins, n) ensures n in s.order {
      PresentIfActive(s.plugins, n);
    }
  }

  // ----- runs -----

  ghost function Run(ops: seq<Op>): Sys {
    if ops == [] then Sys(map[], [], false) else Apply(Run(ops[..|ops| - 1]), ops[|ops| - 1])
  }

  ghost predicate SaneRun(ops: seq<Op>) {
    forall k :: 0 <= k < |ops| ==> Sane(Run(ops[..k]), ops[k])
  }

  lemma ApplyKeepsBase(s: Sys, op: Op)
    requires Base(s) && !s.down && Sane(s, op)
    ensures !Apply(s, op).down ==>
              Base(Apply(s, op)) && (DepClosed(s.plugins) ==> (DepClosed(Apply(s, op).plugins) <==> OpensNoGap(s, op)))
    ensures Apply(s, op).down <==> (op.OpStop? && !NoAbsent(s.plugins, s.order)) || (op.OpRetry? && RetriesAbsent(s.plugins, op.name))
  {
    hide Base, DepClosed, BuiltOrder, NoGap, NoAbsent, RetriesAbsent, Started, StopAll, Enable, Disable, Retry, LoadAll;
    match op
    case OpLoad(entries) => LoadKeepsInvariants(s, entries);
    case OpStart(resolver, built, initOk, startOk) =>
      StartKeepsBase(s, op);
      if DepClosed(s.plugins) { StartKeepsClosed(s, op); }
    case OpStop(ok) => StopKeepsInvariants(s, ok);
    case OpEnable(name, i, st) => EnableKeepsInvariants(s, name, i, st);
    case OpDisable(name, st) => DisableKeepsInvariants(s, name, st);
    case OpRetry(name, i, st) => RetryKeepsInvariants(s, name, i, st);
  }

  lemma EmptyBase()
    ensures Base(Sys(map[], [], false)) && DepClosed(map[])
  {}

  lemma RunUnfold(ops: seq<Op>, k: nat)
    requires k < |ops|
    ensures Run(ops[..k + 1]) == Apply(Run(ops[..k]), ops[k])
    ensures Run(ops[..k]).down ==> Run(ops[..k + 1]).down
  {
    assert ops[..k + 1][..k] == ops[..k];
  }

  /**
   Over every run from an empty manager, whatever a resolver and the callbacks answer: as long as it is up, plugins are
   settled between operations and every plugin that has been started is in the order, the only list Disable scans.
   */
  lemma {:induction false} RunsKeepBase(ops: seq<Op>, k: nat)
    requires SaneRun(ops) && k <= |ops|
    ensures !Run(ops[..k]).down ==> Base(Run(ops[..k]))
  {
    hide Base, DepClosed, Apply, Sane, OpensNoGap, NoAbsent, RetriesAbsent;
    if k == 0 {
      EmptyBase();
    } else {
      RunsKeepBase(ops, k - 1);
      RunUnfold(ops, k - 1);
      if !Run(ops[..k - 1]).down { ApplyKeepsBase(Run(ops[..k - 1]), ops[k - 1]); }
    }
  }

  /**
   Active plugins have active requirements after every operation of a run exactly when none of its Starts opens a gap:
   Load, Stop, Enable, Disable and Retry never break it, whatever their callbacks answer.
   */
  lemma RunsStayClosedIff(ops: seq<Op>)
    requires SaneRun(ops)
    ensures (forall k :: 0 <= k <= |ops| && !Run(ops[..k]).down ==> DepClosed(Run(ops[..k]).plugins))
            <==> (forall k :: 0 <= k < |ops| && !Run(ops[..k]).down ==> OpensNoGap(Run(ops[..k]), ops[k]))
  {
    hide Base, DepClosed, Apply, Sane, NoGap, Run, NoAbsent, RetriesAbsent;
    if forall k :: 0 <= k < |ops| && !Run(ops[..k]).down ==> OpensNoGap(Run(ops[..k]), ops[k]) {
      forall k | 0 <= k <= |ops| && !Run(ops[..k]).down ensures DepClosed(Run(ops[..k]).plugins) { ClosedSoFar(ops, k); }
    }
    if forall k :: 0 <= k <= |ops| && !Run(ops[..k]).down ==> DepClosed(Run(ops[..k]).plugins) {
      forall k | 0 <= k < |ops| && !Run(ops[..k]).down ensures OpensNoGap(Run(ops[..k]), ops[k]) {
        RunsKeepBase(ops, k);
        RunUnfold(ops, k);
        ApplyKeepsBase(Run(ops[..k]), ops[k]);
        assert ops[k].OpStart? ==> !Run(ops[..k + 1]).down;
      }
    }
  }

  lemma {:induction false} ClosedSoFar(ops: seq<Op>, k: nat)
    requires SaneRun(ops) && k <= |ops|
    requires forall i :: 0 <= i < |ops| && !Run(ops[..i]).down ==> OpensNoGap(Run(ops[..i]), ops[i])
    ensures !Run(ops[..k]).down ==> DepClosed(Run(ops[..k]).plugins)
  {
    hide Base, DepClosed, Apply, Sane, OpensNoGap, NoAbsent, RetriesAbsent;
    if k == 0 {
      EmptyBase();
    } else {
      ClosedSoFar(ops, k - 1);
      RunsKeepBase(ops, k - 1);
      RunUnfold(ops, k - 1);
      if !Run(ops[..k - 1]).down { ApplyKeepsBase(Run(ops[..k - 1]), ops[k - 1]); }
    }
  }

  // ----- when a run goes down -----

  ghost predicate StartsAnew(op: Op) {
    op.OpStart? && op.built.Success?
  }

  /** Position `i` holds the last Start before `k` that had an order. */
  ghost predicate LastStart(ops: seq<Op>, k: nat, i: nat)
    requires k <= |ops|
  {
    i < k && StartsAnew(ops[i]) && forall m :: i < m < k ==> !StartsAnew(ops[m])
  }

  ghost predicate HasAbsent(plugins: Plugins) {
    exists n :: n in plugins && !plugins[n].present
  }

  ghost predicate Held(s: Sys) {
    forall n :: n in s.order ==> n in s.plugins
  }

  /** Operations keep what was loaded, and what it was loaded from. */
  ghost predicate Keeps(before: Plugins, after: Plugins) {
    before.Keys <= after.Keys
    && forall n :: n in before && n in after ==> after[n].manifest == before[n].manifest && after[n].present == before[n].present
  }

  lemma StartKeeps(s: Sys, op: Op)
    requires Base(s) && !s.down && StartsAnew(op) && Sane(s, op)
    ensures Keeps(s.plugins, Apply(s, op).plugins)
    ensures Elems(Apply(s, op).order) == s.plugins.Keys == Apply(s, op).plugins.Keys
  {
    hide Started, StartCalls, InitAll, ComesUp, InitAsked, Sound, Listed, BuiltOrder, Distinct;
    var order := op.built.value;
    BuiltOrderCovers(s.plugins, op.resolver, order);
    StartKeys(s.plugins, order, op.initOk, op.startOk);
    forall n | n in s.plugins { StartExact(s.plugins, order, op.initOk, op.startOk, n); }
  }

  lemma StopKeeps(s: Sys, ok: Outcomes)
    requires Base(s) && !s.down && !Apply(s, OpStop(ok)).down
    ensures Keeps(s.plugins, Apply(s, OpStop(ok)).plugins) && Apply(s, OpStop(ok)).plugins.Keys == s.plugins.Keys
  {
    hide StopAll, Listed, StopsWell, DepClosed;
    StopKeepsInvariants(s, ok);
    ReversedMembers(s.order);
    StopAllDone(s.plugins, Reversed(s.order), ok);
  }

  lemma ApplyKeeps(s: Sys, op: Op)
    requires Base(s) && !s.down && Sane(s, op) && !Apply(s, op).down
    ensures Keeps(s.plugins, Apply(s, op).plugins)
    ensures !op.OpLoad? ==> Apply(s, op).plugins.Keys == s.plugins.Keys
    ensures StartsAnew(op) ==> Elems(Apply(s, op).order) == s.plugins.Keys
    ensures !StartsAnew(op) ==> Apply(s, op).order == s.order
  {
    hide LoadAll, Started, StopAll, Listed, BuiltOrder, FirstInactive, FirstDependent;
    match op
    case OpLoad(entries) => LoadExtends(s.plugins, entries);
    case OpStart(resolver, built, initOk, startOk) => if built.Success? { StartKeeps(s, op); }
    case OpStop(ok) => StopKeeps(s, ok);
    case _ =>
  }

  /** The last Start with an order, if any, found an entry that had failed to load. */
  ghost predicate StartedAbsent(ops: seq<Op>, k: nat)
    requires k <= |ops|
  {
    exists i :: 0 <= i < k && LastStart(ops, k, i) && HasAbsent(Run(ops[..i]).plugins)
  }

  lemma LastStartUnfold(ops: seq<Op>, k: nat)
    requires 0 < k <= |ops|
    ensures StartsAnew(ops[k - 1]) ==> (StartedAbsent(ops, k) <==> HasAbsent(Run(ops[..k - 1]).plugins))
    ensures !StartsAnew(ops[k - 1]) ==> (StartedAbsent(ops, k) <==> StartedAbsent(ops, k - 1))
  {
    hide StartsAnew, HasAbsent, Run;
    if StartsAnew(ops[k - 1]) {
      assert LastStart(ops, k, k - 1);
      forall i | 0 <= i < k && LastStart(ops, k, i) ensures i == k - 1 {}
    } else {
      forall i ensures 0 <= i < k && LastStart(ops, k, i) <==> 0 <= i < k - 1 && LastStart(ops, k - 1, i) {}
    }
  }

  lemma {:induction false} AbsentSinceStart(ops: seq<Op>, k: nat)
    requires SaneRun(ops) && k <= |ops| && !Run(ops[..k]).down
    ensures Held(Run(ops[..k]))
    ensures !NoAbsent(Run(ops[..k]).plugins, Run(ops[..k]).order) <==> StartedAbsent(ops, k)
  {
    if k > 0 {
      hide Base, Apply, Sane, StartsAnew, StartedAbsent, Held, NoAbsent, HasAbsent, Keeps, Run;
      var s, t, op := Run(ops[..k - 1]), Run(ops[..k]), ops[k - 1];
      RunUnfold(ops, k - 1);
      RunsKeepBase(ops, k - 1);
      AbsentSinceStart(ops, k - 1);
      ApplyKeeps(s, op);
      LastStartUnfold(ops, k);
      if StartsAnew(op) {
        AbsentInOrder(s.plugins, t.plugins, t.order);
      } else {
        AbsentStays(s, t);
      }
    }
  }

  lemma AbsentStays(s: Sys, t: Sys)
    requires Held(s) && Keeps(s.plugins, t.plugins) && t.order == s.order
    ensures Held(t) && (NoAbsent(t.plugins, t.order) <==> NoAbsent(s.plugins, s.order))
  {}

  lemma AbsentInOrder(before: Plugins, after: Plugins, order: seq<string>)
    requires Keeps(before, after) && Elems(order) == before.Keys == after.Keys
    ensures !NoAbsent(after, order) <==> HasAbsent(before)
    ensures Held(Sys(after, order, false))
  {
    forall n ensures n in order <==> n in before { assert n in order <==> n in Elems(order); }
  }

  /**
   A run goes down exactly at a Stop when the last Start with an order found an entry that had failed to load, and at a
   Retry of such an entry whose requirements are all active.
   */
  lemma RunsGoDownIff(ops: seq<Op>, k: nat)
    requires SaneRun(ops) && k < |ops| && !Run(ops[..k]).down
    ensures Run(ops[..k + 1]).down <==>
            || (ops[k].OpStop? && StartedAbsent(ops, k))
            || (ops[k].OpRetry? && RetriesAbsent(Run(ops[..k]).plugins, ops[k].name))
  {
    hide Base, Apply, Sane, StartedAbsent, NoAbsent, RetriesAbsent, Run, OpensNoGap, DepClosed;
    RunUnfold(ops, k);
    RunsKeepBase(ops, k);
    AbsentSinceStart(ops, k);
    ApplyKeepsBase(Run(ops[..k]), ops[k]);
  }

  // ----- runs whose orders put requirements first -----

  /** A Start whose order puts loaded requirements first. The manager's own sort always does. */
  ghost predicate Orderly(s: Sys, op: Op) {
    StartsAnew(op) && !s.down ==> op.resolver.None? || Respects(s.plugins, op.built.value)
  }

  /** All requirements are loaded, which the manager's own sort has checked. */
  ghost predicate Supplied(s: Sys, op: Op) {
    StartsAnew(op) && !s.down ==> op.resolver.None? || RequirementsLoaded(s.plugins)
  }

  ghost predicate NoStartFails(op: Op) {
    op.OpStart? ==> forall i :: op.startOk(i)
  }

  lemma OrderlyRespects(s: Sys, op: Op)
    requires Sane(s, op) && StartsAnew(op) && !s.down
    ensures Orderly(s, op) ==> Respects(s.plugins, op.built.value)
    ensures Supplied(s, op) ==> RequirementsLoaded(s.plugins)
    ensures Elems(op.built.value) == s.plugins.Keys
  {
    hide Respects, RequirementsLoaded, BuiltOrder;
    BuiltOrderCovers(s.plugins, op.resolver, op.built.value);
    if op.resolver.None? { FallbackRespects(s.plugins, op.built.value); }
  }

  /** Over runs with such Starts in which no `Start()` callback fails, active plugins always have active requirements. */
  lemma OrderlyRunsStayClosed(ops: seq<Op>)
    requires SaneRun(ops)
    requires forall k :: 0 <= k < |ops| ==> Orderly(Run(ops[..k]), ops[k]) && Supplied(Run(ops[..k]), ops[k]) && NoStartFails(ops[k])
    ensures forall k :: 0 <= k <= |ops| && !Run(ops[..k]).down ==> DepClosed(Run(ops[..k]).plugins)
  {
    hide Run, DepClosed, NoGap, Respects, RequirementsLoaded, BuiltOrder;
    forall k | 0 <= k < |ops| && !Run(ops[..k]).down ensures OpensNoGap(Run(ops[..k]), ops[k]) {
      var s, op := Run(ops[..k]), ops[k];
      assert Sane(s, op) && Orderly(s, op) && Supplied(s, op);
      if StartsAnew(op) {
        OrderlyRespects(s, op);
        RespectsNoGap(s.plugins, op.built.value, op.initOk, op.startOk);
      }
    }
    RunsStayClosedIff(ops);
  }

  /** The order holds loaded plugins, each once, after those of their requirements that it holds. */
  ghost predicate Ordered(s: Sys) {
    && Distinct(s.order)
    && (forall n :: n in s.order ==> n in s.plugins)
    && (forall n, d {:trigger d in Needs(s.plugins[n])} ::
          n in s.order && n in s.plugins && d in Needs(s.plugins[n]) && d in s.order ==> Before(s.order, d, n))
  }

  /** It holds whatever a plugin of the order requires. */
  ghost predicate Complete(s: Sys) {
    forall n, d :: n in s.order && n in s.plugins && d in Needs(s.plugins[n]) ==> d in s.order
  }

  lemma SameManifestsOrdered(s: Sys, now: Plugins)
    requires Keeps(s.plugins, now) && Ordered(s)
    ensures Ordered(s.(plugins := now))
    ensures Complete(s) ==> Complete(s.(plugins := now))
  {
    hide Needs, Before, Distinct;
    forall n | n in s.plugins ensures Needs(now[n]) == Needs(s.plugins[n]) { SameNeeds(now[n], s.plugins[n]); }
  }

  lemma FreshlyOrdered(plugins: Plugins, order: seq<string>)
    requires Respects(plugins, order) && Elems(order) == plugins.Keys
    ensures Ordered(Sys(plugins, order, false))
    ensures RequirementsLoaded(plugins) ==> Complete(Sys(plugins, order, false))
  {
    hide Needs, Before, Distinct;
    assert forall d :: d in plugins ==> d in Elems(order);
  }

  lemma ApplyKeepsOrdered(s: Sys, op: Op)
    requires Base(s) && !s.down && Ordered(s) && Sane(s, op) && Orderly(s, op) && !Apply(s, op).down
    ensures Ordered(Apply(s, op))
    ensures Complete(s) && Supplied(s, op) ==> Complete(Apply(s, op))
  {
    hide Ordered, Complete, Needs, Before, Distinct, BuiltOrder, Respects, RequirementsLoaded, Listed, Settled;
    ApplyKeeps(s, op);
    if StartsAnew(op) {
      OrderlyRespects(s, op);
      FreshlyOrdered(s.plugins, op.built.value);
      SameManifestsOrdered(Sys(s.plugins, op.built.value, false), Apply(s, op).plugins);
    } else {
      SameManifestsOrdered(s, Apply(s, op).plugins);
    }
  }

  /**
   Over runs whose Starts use orderly orders, whatever the callbacks answer, every shutdown reaches active dependents first,
   so that it keeps the active set closed at every step.
   */
  lemma {:induction false} OrderlyRunsStopInOrder(ops: seq<Op>, k: nat)
    requires SaneRun(ops) && (forall i :: 0 <= i < |ops| ==> Orderly(Run(ops[..i]), ops[i])) && k <= |ops|
    ensures !Run(ops[..k]).down ==> Ordered(Run(ops[..k])) && DependentsFirst(Run(ops[..k]).plugins, Run(ops[..k]).order)
  {
    hide Base, Apply, Sane, Orderly, Ordered, DependentsFirst;
    if k == 0 {
      NothingOrdered();
    } else {
      OrderlyRunsStopInOrder(ops, k - 1);
      RunsKeepBase(ops, k - 1);
      RunUnfold(ops, k - 1);
      if !Run(ops[..k]).down { ApplyKeepsOrdered(Run(ops[..k - 1]), ops[k - 1]); }
    }
    RunsKeepBase(ops, k);
    if !Run(ops[..k]).down { OrderedStopsInOrder(Run(ops[..k])); }
  }

  /** And when those Starts found all requirements loaded, it reaches every plugin of the order before whatever it requires. */
  lemma {:induction false} SuppliedRunsStopInOrder(ops: seq<Op>, k: nat)
    requires SaneRun(ops) && k <= |ops|
    requires forall i :: 0 <= i < |ops| ==> Orderly(Run(ops[..i]), ops[i]) && Supplied(Run(ops[..i]), ops[i])
    ensures !Run(ops[..k]).down ==> Complete(Run(ops[..k])) && RequirementsLast(Run(ops[..k]).plugins, Run(ops[..k]).order)
  {
    hide Base, Apply, Sane, Orderly, Supplied, Ordered, Complete, RequirementsLast;
    if k == 0 {
      NothingOrdered();
    } else {
      SuppliedRunsStopInOrder(ops, k - 1);
      OrderlyRunsStopInOrder(ops, k - 1);
      RunsKeepBase(ops, k - 1);
      RunUnfold(ops, k - 1);
      if !Run(ops[..k]).down { ApplyKeepsOrdered(Run(ops[..k - 1]), ops[k - 1]); }
    }
    OrderlyRunsStopInOrder(ops, k);
    if !Run(ops[..k]).down { CompleteStopsInOrder(Run(ops[..k])); }
  }

  lemma NothingOrdered()
    ensures Ordered(Sys(map[], [], false)) && Complete(Sys(map[], [], false))
  {}

  lemma OrderedStopsInOrder(s: Sys)
    requires Base(s) && Ordered(s)
    ensures DependentsFirst(s.plugins, s.order)
  {
    hide Needs, First, Distinct;
    forall n, d | ActiveIn(s.plugins, n) && ActiveIn(s.plugins, d) && d in Needs(s.plugins[n]) && d != n
      ensures Before(Reversed(s.order), n, d)
    {
      assert Before(s.order, d, n);
      ReversedBefore(s.order, n, d);
    }
  }

  lemma CompleteStopsInOrder(s: Sys)
    requires Ordered(s) && Complete(s)
    ensures RequirementsLast(s.plugins, s.order)
  {
    hide Needs, First, Distinct;
    forall n, d | n in s.order && n in s.plugins && d in Needs(s.plugins[n]) ensures Before(Reversed(s.order), n, d) {
      assert d in s.order;
      assert Before(s.order, d, n);
      ReversedBefore(s.order, n, d);
    }
  }
}

/**
 The registry under concurrent use. Register and HotSwap check trust one requirement at a time, and Remove reads the
 dependents, each under a read lock of its own; only the transaction that follows holds the write lock.
 */
module Interleavings {
  import opened Wrappers
  import opened Routes
  import opened Database
  import opened IndexTheorems
  import opened RegistryTheorems
  import opened TrustTheorems
  import opened RegistryGaps

  type CallId = nat

  datatype Write = Registering(route: Route) | Swapping(ref: RouteRef, route: Route) | Removing(ref: RouteRef)

  /** Where one call stands: before its next check, ready for its transaction with the dependents it has read, or ended. */
  datatype Call =
    | Checking(write: Write, passed: nat)
    | Cleared(write: Write, dependents: seq<RouteRef>)
    | Ended(result: Result<(), StoreError>)

  datatype State = State(db: Db, calls: map<CallId, Call>)

  datatype Step =
    | Begin(call: CallId, write: Write)
    | Check(call: CallId)
    | Commit(call: CallId)
    | Rewrite(op: Op)

  function Initial(): State {
    State(EmptyDb(), map[])
  }

  function Onward(write: Write, passed: nat): Call
    requires !write.Removing?
  {
    if passed < |write.route.requirements| then Checking(write, passed) else Cleared(write, [])
  }

  function Begun(write: Write): Call {
    if write.Removing? then Checking(write, 0)
    else if !Validates(write.route) then Ended(Failure(InvalidRoute))
    else Onward(write, 0)
  }

  function Checked(db: Db, write: Write, passed: nat): Call {
    match write
    case Removing(ref) => Cleared(write, Refs(DependentsOf(db, ref)))
    case _ =>
      if passed >= |write.route.requirements| then Cleared(write, []) else
        var d := write.route.requirements[passed];
        if TrustAllows(write.route.trustLevel, TrustOf(db.routes, d)) then Onward(write, passed + 1)
        else Ended(Failure(BelowTrust(d)))
  }

  function Transaction(db: Db, write: Write, dependents: seq<RouteRef>): Result<Db, StoreError> {
    match write
    case Registering(route) => RegisterTx(db, route)
    case Swapping(ref, route) => HotSwapTx(db, ref, route)
    case Removing(ref) => RemoveTx(db, ref, dependents)
  }

  /** A step that does not apply leaves the state alone. Updates and enablements hold the write lock throughout. */
  function Next(s: State, step: Step): State {
    match step
    case Begin(call, write) => if call in s.calls then s else s.(calls := s.calls[call := Begun(write)])
    case Check(call) =>
      if call !in s.calls || !s.calls[call].Checking? then s
      else s.(calls := s.calls[call := Checked(s.db, s.calls[call].write, s.calls[call].passed)])
    case Commit(call) =>
      if call !in s.calls || !s.calls[call].Cleared? then s
      else
        var attempt := Transaction(s.db, s.calls[call].write, s.calls[call].dependents);
        if attempt.Success? then State(attempt.value, s.calls[call := Ended(Success(()))])
        else s.(calls := s.calls[call := Ended(Failure(attempt.error))])
    case Rewrite(op) => if op.OpUpdate? || op.OpSetEnabled? then s.(db := Apply(s.db, op)) else s
  }

  function RunFrom(s: State, steps: seq<Step>): State {
    if steps == [] then s else Next(RunFrom(s, steps[..|steps| - 1]), steps[|steps| - 1])
  }

  function Run(steps: seq<Step>): State {
    RunFrom(Initial(), steps)
  }

  lemma RunPrefix(steps: seq<Step>, k: nat)
    requires k < |steps|
    ensures Run(steps[..k + 1]) == Next(Run(steps[..k]), steps[k])
  {
    assert steps[..k + 1][..k] == steps[..k];
  }

  // ----- what calls carry -----

  /** Only validated routes get as far as a check. */
  predicate Sound(s: State) {
    forall c :: c in s.calls && !s.calls[c].Ended? && !s.calls[c].write.Removing? ==> Validates(s.calls[c].write.route)
  }

  lemma NextKeepsSound(s: State, step: Step)
    requires Sound(s)
    ensures Sound(Next(s, step))
  {
    hide Validates, Transaction, TrustOf, DependentsOf, Apply;
  }

  lemma {:induction false} RunSound(steps: seq<Step>)
    ensures Sound(Run(steps))
  {
    hide Sound, Next;
    if steps == [] {
      NothingCalled();
    } else {
      RunSound(steps[..|steps| - 1]);
      NextKeepsSound(Run(steps[..|steps| - 1]), steps[|steps| - 1]);
    }
  }

  lemma NothingCalled()
    ensures Sound(Initial())
  {}

  // ----- the indexes -----

  /** The step commits this write. */
  predicate Commits(s: State, step: Step, write: Write, dependents: seq<RouteRef>) {
    && step.Commit? && step.call in s.calls && s.calls[step.call] == Cleared(write, dependents)
    && Transaction(s.db, write, dependents).Success?
  }

  ghost predicate SafeStep(s: State, step: Step) {
    forall write, dependents :: Commits(s, step, write, dependents) && write.Swapping? ==> SwapSafe(s.db, write.ref, write.route)
  }

  lemma NextDb(s: State, step: Step)
    ensures Next(s, step).db ==
            if step.Commit? && step.call in s.calls && s.calls[step.call].Cleared?
               && Commits(s, step, s.calls[step.call].write, s.calls[step.call].dependents)
            then Transaction(s.db, s.calls[step.call].write, s.calls[step.call].dependents).value
            else if step.Rewrite? && (step.op.OpUpdate? || step.op.OpSetEnabled?) then Apply(s.db, step.op)
            else s.db
  {
    hide Transaction, Apply;
  }

  /** Whatever has been checked and read before, a step keeps the indexes exact unless it commits an unsafe swap. */
  lemma NextKeepsIndexesIff(s: State, step: Step)
    requires Consistent(s.db) && Sound(s)
    ensures Consistent(Next(s, step).db) <==> SafeStep(s, step)
  {
    hide Consistent, Validates, SwapSafe, Next, RegisterTx, HotSwapTx, RemoveTx, Apply;
    NextDb(s, step);
    if step.Commit? && step.call in s.calls && s.calls[step.call].Cleared?
       && Commits(s, step, s.calls[step.call].write, s.calls[step.call].dependents) {
      match s.calls[step.call].write
      case Registering(route) => RegisterTxKeepsIndexes(s.db, route);
      case Swapping(ref, route) => HotSwapTxKeepsIndexesIff(s.db, ref, route);
      case Removing(ref) => RemoveTxKeepsIndexes(s.db, ref, s.calls[step.call].dependents);
    } else if step.Rewrite? && (step.op.OpUpdate? || step.op.OpSetEnabled?) {
      ApplyKeepsIndexes(s.db, step.op);
    }
  }

  /** Over every interleaving, both indexes stay exact after every step exactly when no unsafe swap is committed. */
  lemma InterleavingsKeepIndexesIff(steps: seq<Step>)
    ensures (forall k :: 0 <= k <= |steps| ==> Consistent(Run(steps[..k]).db))
            <==> (forall k :: 0 <= k < |steps| ==> SafeStep(Run(steps[..k]), steps[k]))
  {
    hide Consistent, Run, Next, SafeStep, Sound;
    if forall k :: 0 <= k < |steps| ==> SafeStep(Run(steps[..k]), steps[k]) {
      forall k | 0 <= k <= |steps| ensures Consistent(Run(steps[..k]).db) { ConsistentSoFar(steps, k); }
    }
    if forall k :: 0 <= k <= |steps| ==> Consistent(Run(steps[..k]).db) {
      forall k | 0 <= k < |steps| ensures SafeStep(Run(steps[..k]), steps[k]) {
        RunPrefix(steps, k);
        RunSound(steps[..k]);
        assert Consistent(Run(steps[..k]).db) && Consistent(Run(steps[..k + 1]).db);
        NextKeepsIndexesIff(Run(steps[..k]), steps[k]);
      }
    }
  }

  lemma {:induction false} ConsistentSoFar(steps: seq<Step>, k: nat)
    requires k <= |steps| && forall i :: 0 <= i < |steps| ==> SafeStep(Run(steps[..i]), steps[i])
    ensures Consistent(Run(steps[..k]).db)
  {
    hide Consistent, Next, SafeStep, Sound;
    if k == 0 {
      EmptyConsistent();
    } else {
      ConsistentSoFar(steps, k - 1);
      RunPrefix(steps, k - 1);
      RunSound(steps[..k - 1]);
      NextKeepsIndexesIff(Run(steps[..k - 1]), steps[k - 1]);
    }
  }

  // ----- trust -----

  /** What the trust of the stored routes asks of a write at the moment it is committed. */
  ghost predicate MayCommit(b: Buckets, write: Write) {
    match write
    case Registering(route) => MayTrust(b, route.Ref(), route.trustLevel, {}) && TrustsOwn(b, route, {})
    case Swapping(ref, route) =>
      var replaced := {ref, Landing(ref, route)};
      MayTrust(b, Landing(ref, route), route.trustLevel, replaced) && TrustsOwn(b, route, replaced)
    case Removing(_) => true
  }

  ghost predicate TrustStep(s: State, step: Step) {
    forall write, dependents :: Commits(s, step, write, dependents) ==> MayCommit(s.db.routes, write)
  }

  lemma NextKeepsTrustIff(s: State, step: Step)
    requires Keyed(s.db.routes) && Sound(s)
    ensures Keyed(Next(s, step).db.routes)
    ensures TrustKept(s.db.routes) ==> (TrustKept(Next(s, step).db.routes) <==> TrustStep(s, step))
  {
    hide Keyed, Validates, TrustKept, MayTrust, TrustsOwn, Next, Apply;
    NextDb(s, step);
    if step.Commit? && step.call in s.calls && s.calls[step.call].Cleared?
       && Commits(s, step, s.calls[step.call].write, s.calls[step.call].dependents) {
      TransactionKeepsTrustIff(s.db, s.calls[step.call].write, s.calls[step.call].dependents);
    } else if step.Rewrite? && (step.op.OpUpdate? || step.op.OpSetEnabled?) {
      ApplyKeepsTrustIff(s.db, step.op);
    }
  }

  lemma TransactionKeepsTrustIff(db: Db, write: Write, dependents: seq<RouteRef>)
    requires Keyed(db.routes) && (!write.Removing? ==> Validates(write.route)) && Transaction(db, write, dependents).Success?
    ensures var after := Transaction(db, write, dependents).value.routes;
            Keyed(after) && (TrustKept(db.routes) ==> (TrustKept(after) <==> MayCommit(db.routes, write)))
  {
    hide Keyed, Validates, TrustKept, MayTrust, TrustsOwn, RegisterTx, HotSwapTx;
    match write
    case Registering(route) =>
      RegisterTxExact(db, route, route.Ref());
      if TrustKept(db.routes) { RegisterTxKeepsTrustIff(db, route); }
    case Swapping(ref, route) =>
      HotSwapExact(db, ref, route, ref);
      if TrustKept(db.routes) { HotSwapTxKeepsTrustIff(db, ref, route); }
    case Removing(ref) =>
      RemoveTxExact(db, ref, dependents, ref);
      if TrustKept(db.routes) { RemoveTxKeepsTrust(db, ref, dependents); }
  }

  /**
   Over every interleaving, every stored requirement is respected after every step exactly when each committed write finds
   dependents that may trust it and requirements that it may trust at the moment of its commit.
   */
  lemma InterleavingsKeepTrustIff(steps: seq<Step>)
    ensures (forall k :: 0 <= k <= |steps| ==> TrustKept(Run(steps[..k]).db.routes))
            <==> (forall k :: 0 <= k < |steps| ==> TrustStep(Run(steps[..k]), steps[k]))
  {
    hide TrustKept, Run, Next, TrustStep, Sound, Keyed;
    if forall k :: 0 <= k < |steps| ==> TrustStep(Run(steps[..k]), steps[k]) {
      forall k | 0 <= k <= |steps| ensures TrustKept(Run(steps[..k]).db.routes) { KeyedSoFar(steps, k); }
    }
    if forall k :: 0 <= k <= |steps| ==> TrustKept(Run(steps[..k]).db.routes) {
      forall k | 0 <= k < |steps| ensures TrustStep(Run(steps[..k]), steps[k]) {
        RunPrefix(steps, k);
        RunSound(steps[..k]);
        KeyedSoFar(steps, k);
        assert TrustKept(Run(steps[..k]).db.routes) && TrustKept(Run(steps[..k + 1]).db.routes);
        NextKeepsTrustIff(Run(steps[..k]), steps[k]);
      }
    }
  }

  lemma {:induction false} KeyedSoFar(steps: seq<Step>, k: nat)
    requires k <= |steps|
    ensures Keyed(Run(steps[..k]).db.routes)
    ensures (forall i :: 0 <= i < |steps| ==> TrustStep(Run(steps[..i]), steps[i])) ==> TrustKept(Run(steps[..k]).db.routes)
  {
    hide TrustKept, Next, TrustStep, Sound, Keyed;
    if k == 0 {
      NothingStored();
    } else {
      KeyedSoFar(steps, k - 1);
      RunPrefix(steps, k - 1);
      RunSound(steps[..k - 1]);
      NextKeepsTrustIff(Run(steps[..k - 1]), steps[k - 1]);
    }
  }

  // ----- calls that nothing interrupts -----

  /** The call as one write of `RegistryTheorems`. */
  function OpOf(write: Write): Op {
    match write
    case Registering(route) => OpRegister(route)
    case Swapping(ref, route) => OpHotSwap(ref, route)
    case Removing(ref) => OpRemove(ref)
  }

  function Checks(call: CallId, n: nat): (steps: seq<Step>)
    ensures |steps| == n && forall i :: 0 <= i < n ==> steps[i] == Check(call)
  {
    seq(n, _ => Check(call))
  }

  /** All the steps of one call. */
  function Alone(call: CallId, write: Write): seq<Step> {
    [Begin(call, write)] + Checks(call, if write.Removing? then 1 else |write.route.requirements|) + [Commit(call)]
  }

  /** Where a call stands after `n` checks in a row. */
  function AfterChecks(db: Db, write: Write, passed: nat, n: nat): Call
    requires !write.Removing? && passed + n == |write.route.requirements|
  {
    match TrustFault(db.routes, write.route.trustLevel, write.route.requirements[passed..])
    case Some(d) => Ended(Failure(BelowTrust(d)))
    case None => Cleared(write, [])
  }

  lemma RunAppend(s: State, a: seq<Step>, b: seq<Step>)
    ensures RunFrom(s, a + b) == RunFrom(RunFrom(s, a), b)
  {
    hide Next;
    if b == [] {
      assert a + b == a;
    } else {
      var n := |b| - 1;
      assert (a + b)[..|a + b| - 1] == a + b[..n];
      RunAppend(s, a, b[..n]);
    }
  }

  lemma RunCons(s: State, step: Step, rest: seq<Step>)
    ensures RunFrom(s, [step] + rest) == RunFrom(Next(s, step), rest)
  {
    RunAppend(s, [step], rest);
    assert [step][..0] == [];
    assert RunFrom(s, [step]) == Next(s, step);
  }

  lemma {:induction false} EndedStays(s: State, call: CallId, n: nat)
    requires call in s.calls && s.calls[call].Ended?
    ensures RunFrom(s, Checks(call, n)) == s
  {
    if n > 0 {
      assert Checks(call, n)[..n - 1] == Checks(call, n - 1);
      EndedStays(s, call, n - 1);
    }
  }

  lemma CheckOnce(s: State, call: CallId, write: Write, passed: nat)
    requires !write.Removing? && passed < |write.route.requirements|
    requires call in s.calls && s.calls[call] == Onward(write, passed)
    ensures var d := write.route.requirements[passed];
            Next(s, Check(call)) == s.(calls := s.calls[call := if TrustAllows(write.route.trustLevel, TrustOf(s.db.routes, d))
                                                                then Onward(write, passed + 1) else Ended(Failure(BelowTrust(d)))])
  {
    hide TrustOf, TrustAllows;
  }

  lemma AfterOneCheck(db: Db, write: Write, passed: nat, n: nat)
    requires !write.Removing? && passed + n == |write.route.requirements|
    ensures n == 0 ==> AfterChecks(db, write, passed, n) == Cleared(write, [])
    ensures n > 0 ==> var d := write.route.requirements[passed];
                      AfterChecks(db, write, passed, n) == if TrustAllows(write.route.trustLevel, TrustOf(db.routes, d))
                                                           then AfterChecks(db, write, passed + 1, n - 1)
                                                           else Ended(Failure(BelowTrust(d)))
  {
    hide TrustOf, TrustAllows;
    if n > 0 { assert write.route.requirements[passed..][1..] == write.route.requirements[passed + 1..]; }
  }

  lemma {:induction false} ChecksInARow(s: State, call: CallId, write: Write, passed: nat, n: nat)
    requires !write.Removing? && passed + n == |write.route.requirements|
    requires call in s.calls && s.calls[call] == Onward(write, passed)
    ensures RunFrom(s, Checks(call, n)) == s.(calls := s.calls[call := AfterChecks(s.db, write, passed, n)])
    decreases n
  {
    hide TrustOf, TrustAllows, AfterChecks, Next;
    AfterOneCheck(s.db, write, passed, n);
    if n == 0 {
      assert Checks(call, 0) == [];
      assert s.calls[call := s.calls[call]] == s.calls;
    } else {
      var t := Next(s, Check(call));
      CheckOnce(s, call, write, passed);
      assert Checks(call, n) == [Check(call)] + Checks(call, n - 1);
      RunCons(s, Check(call), Checks(call, n - 1));
      if TrustAllows(write.route.trustLevel, TrustOf(s.db.routes, write.route.requirements[passed])) {
        ChecksInARow(t, call, write, passed + 1, n - 1);
      } else {
        EndedStays(t, call, n - 1);
      }
    }
  }

  lemma AloneUnfold(s: State, call: CallId, write: Write)
    ensures var n := if write.Removing? then 1 else |write.route.requirements|;
            RunFrom(s, Alone(call, write)) == Next(RunFrom(Next(s, Begin(call, write)), Checks(call, n)), Commit(call))
  {
    hide Next;
    var n := if write.Removing? then 1 else |write.route.requirements|;
    var begun := Next(s, Begin(call, write));
    RunCons(s, Begin(call, write), Checks(call, n) + [Commit(call)]);
    assert [Begin(call, write)] + (Checks(call, n) + [Commit(call)]) == Alone(call, write);
    RunAppend(begun, Checks(call, n), [Commit(call)]);
    RunCons(RunFrom(begun, Checks(call, n)), Commit(call), []);
    assert [Commit(call)] + [] == [Commit(call)];
  }

  /** The state in which the single write leaves everything. */
  function AfterOp(s: State, call: CallId, op: Op): State {
    State(Apply(s.db, op), s.calls[call := Ended(if Attempt(s.db, op).Success? then Success(()) else Failure(Attempt(s.db, op).error))])
  }

  lemma CommitAlone(s: State, call: CallId)
    requires call in s.calls
    ensures s.calls[call].Ended? ==> Next(s, Commit(call)) == s
    ensures s.calls[call].Cleared? ==>
              Next(s, Commit(call)) == var t := Transaction(s.db, s.calls[call].write, s.calls[call].dependents);
                                       if t.Success? then State(t.value, s.calls[call := Ended(Success(()))])
                                       else s.(calls := s.calls[call := Ended(Failure(t.error))])
  {
    hide Transaction;
  }

  /** A call whose steps nothing interrupts does what the single write does, and answers as it does. */
  lemma AloneIsAtomic(s: State, call: CallId, write: Write)
    requires call !in s.calls
    ensures RunFrom(s, Alone(call, write)) == AfterOp(s, call, OpOf(write))
  {
    hide RunFrom, Next, Alone, Checks, Apply, Attempt, AfterOp;
    AloneUnfold(s, call, write);
    if write.Removing? {
      RemoveAlone(s, call, write.ref);
    } else {
      CheckedAlone(s, call, write);
    }
  }

  lemma RemoveAlone(s: State, call: CallId, ref: RouteRef)
    requires call !in s.calls
    ensures Next(RunFrom(Next(s, Begin(call, Removing(ref))), Checks(call, 1)), Commit(call)) == AfterOp(s, call, OpRemove(ref))
  {
    hide RemoveTx, DependentsOf, Refs;
    var begun := Next(s, Begin(call, Removing(ref)));
    var read := Next(begun, Check(call));
    assert Checks(call, 1) == [Check(call)] + [];
    RunCons(begun, Check(call), []);
    CommitAlone(read, call);
  }

  lemma CheckedAlone(s: State, call: CallId, write: Write)
    requires call !in s.calls && !write.Removing?
    ensures Next(RunFrom(Next(s, Begin(call, write)), Checks(call, |write.route.requirements|)), Commit(call))
            == AfterOp(s, call, OpOf(write))
  {
    hide Validates, Next, RunFrom, AfterOp, AfterChecks, Onward, OpOf, Transaction, Checks;
    var n, left := |write.route.requirements|, LeftByChecks(s.db, write);
    var checked := RunFrom(Next(s, Begin(call, write)), Checks(call, n));
    assert checked == s.(calls := s.calls[call := left]) by { ChecksAlone(s, call, write); }
    CommitAlone(checked, call);
    CommittedAlone(s, call, write);
    assert s.calls[call := left][call := Ended(Success(()))] == s.calls[call := Ended(Success(()))];
    if left.Cleared? && Transaction(s.db, write, []).Failure? {
      var e := Transaction(s.db, write, []).error;
      assert s.calls[call := left][call := Ended(Failure(e))] == s.calls[call := Ended(Failure(e))];
    }
  }

  /** Where its checks leave a call that nothing interrupts. */
  function LeftByChecks(db: Db, write: Write): (left: Call)
    requires !write.Removing?
    ensures left.Ended? || left == Cleared(write, [])
  {
    if Validates(write.route) then AfterChecks(db, write, 0, |write.route.requirements|) else Ended(Failure(InvalidRoute))
  }

  lemma ChecksAlone(s: State, call: CallId, write: Write)
    requires call !in s.calls && !write.Removing?
    ensures RunFrom(Next(s, Begin(call, write)), Checks(call, |write.route.requirements|))
            == s.(calls := s.calls[call := LeftByChecks(s.db, write)])
  {
    var n, begun := |write.route.requirements|, s.(calls := s.calls[call := Begun(write)]);
    assert Next(s, Begin(call, write)) == begun;
    hide Validates, Next, RunFrom, AfterChecks, Onward, Checks;
    if Validates(write.route) {
      ChecksInARow(begun, call, write, 0, n);
    } else {
      EndedStays(begun, call, n);
    }
  }

  /** What the single write does, told by where the checks leave the call. */
  lemma CommittedAlone(s: State, call: CallId, write: Write)
    requires !write.Removing?
    ensures var checked := LeftByChecks(s.db, write);
            AfterOp(s, call, OpOf(write)) ==
              if checked.Ended? then s.(calls := s.calls[call := checked])
              else var t := Transaction(s.db, write, []);
                   if t.Success? then State(t.value, s.calls[call := Ended(Success(()))])
                   else s.(calls := s.calls[call := Ended(Failure(t.error))])
  {
    hide RegisterTx, HotSwapTx, Validates, TrustFault;
    assert write.route.requirements[0..] == write.route.requirements;
  }

  // ----- calls that are interrupted -----

  lemma Begins(s: State, call: CallId, route: Route)
    requires call !in s.calls && Validates(route)
    ensures Next(s, Begin(call, Registering(route)))
            == s.(calls := s.calls[call := if route.requirements == [] then Cleared(Registering(route), []) else Checking(Registering(route), 0)])
  {
    hide Validates;
  }

  lemma ChecksOnly(s: State, call: CallId, route: Route)
    requires call in s.calls && s.calls[call] == Checking(Registering(route), 0) && |route.requirements| == 1
    requires TrustAllows(route.trustLevel, TrustOf(s.db.routes, route.requirements[0]))
    ensures Next(s, Check(call)) == s.(calls := s.calls[call := Cleared(Registering(route), [])])
  {
    hide TrustOf, TrustAllows;
  }

  lemma CommitsRoute(s: State, call: CallId, route: Route, after: Db)
    requires call in s.calls && s.calls[call] == Cleared(Registering(route), []) && RegisterTx(s.db, route) == Success(after)
    ensures Next(s, Commit(call)) == State(after, s.calls[call := Ended(Success(()))])
  {
    hide RegisterTx;
  }

  lemma InterruptedSteps(a: Route, b: Route, one: Db, two: Db)
    requires Validates(a) && Validates(b) && a.requirements == [b.Ref()] && b.requirements == []
    requires TrustAllows(a.trustLevel, TrustOf(EmptyDb().routes, b.Ref()))
    requires RegisterTx(EmptyDb(), b) == Success(one) && RegisterTx(one, a) == Success(two)
    ensures var steps := [Begin(1, Registering(a)), Check(1), Begin(2, Registering(b)), Commit(2), Commit(1)];
            Run(steps[..4]).db == one && Run(steps) == State(two, map[1 := Ended(Success(())), 2 := Ended(Success(()))])
  {
    hide RegisterTx, Validates, RouteRef.String, TrustOf, TrustAllows, Route.Ref, Run, Next;
    var steps := [Begin(1, Registering(a)), Check(1), Begin(2, Registering(b)), Commit(2), Commit(1)];
    assert steps[..5] == steps;
    var checked, cleared, free, ended: Call :=
      Checking(Registering(a), 0), Cleared(Registering(a), []), Cleared(Registering(b), []), Ended(Success(()));
    NothingRun(steps);
    RunPrefix(steps, 0);
    Begins(Initial(), 1, a);
    var first := Run(steps[..1]);
    assert first == State(EmptyDb(), map[1 := checked]);
    RunPrefix(steps, 1);
    ChecksOnly(first, 1, a);
    var second := Run(steps[..2]);
    assert second == State(EmptyDb(), map[1 := cleared]);
    RunPrefix(steps, 2);
    Begins(second, 2, b);
    var third := Run(steps[..3]);
    assert third == State(EmptyDb(), map[1 := cleared, 2 := free]);
    RunPrefix(steps, 3);
    CommitsRoute(third, 2, b, one);
    var fourth := Run(steps[..4]);
    assert fourth == State(one, map[1 := cleared, 2 := ended]);
    RunPrefix(steps, 4);
    CommitsRoute(fourth, 1, a, two);
  }

  lemma NothingRun(steps: seq<Step>)
    ensures Run(steps[..0]) == Initial()
  {}

  lemma Interrupted(a: Route, b: Route)
    requires Validates(a) && Validates(b) && a.trustLevel == TRUST_L1 && b.trustLevel == TRUST_L3
    requires WithDefaults(a) == a && WithDefaults(b) == b && a.requirements == [b.Ref()] && b.requirements == [] && a.Ref() != b.Ref()
    ensures var steps := [Begin(1, Registering(a)), Check(1), Begin(2, Registering(b)), Commit(2), Commit(1)];
            var before, after := Run(steps[..4]), Run(steps);
            && after.calls == map[1 := Ended(Success(())), 2 := Ended(Success(()))]
            && Register(before.db, a).Failure? && !TrustKept(after.db.routes)
  {
    hide RegisterTx, Validates, RouteRef.String, RouteKey, Keyed, WithDefaults, Has, Lookup, TrustKept, Run;
    NothingThere();
    NothingStored();
    var db := EmptyDb();
    RegisterTxExact(db, b, b.Ref());
    RegisterTxExact(db, b, a.Ref());
    var one := RegisterTx(db, b).value;
    RegisterTxExact(one, a, a.Ref());
    RegisterTxExact(one, a, b.Ref());
    var two := RegisterTx(one, a).value;
    InterruptedSteps(a, b, one, two);
    assert b.Ref() in a.requirements;
    RegisterExact(one, a, a.Ref());
    TrustBroken(two.routes, a.Ref(), b.Ref());
  }

  lemma TrustBroken(routes: Buckets, x: RouteRef, d: RouteRef)
    requires Has(routes, x) && Has(routes, d) && d in Lookup(routes, x).requirements
    requires Lookup(routes, d).trustLevel > Lookup(routes, x).trustLevel
    ensures !TrustKept(routes)
  {}

  /**
   `a`, at L1, requires `b`. Its check passes while `b` is absent; `b` is registered at L3 before `a` is committed. Both are
   accepted, although a registration of `a` that began at the time of its commit would be refused.
   */
  lemma StaleCheckBreaksTrust()
    ensures var a, b := Sample("plugin", "a", [PluginRef("b")], TRUST_L1), Sample("plugin", "b", [], TRUST_L3);
            var steps := [Begin(1, Registering(a)), Check(1), Begin(2, Registering(b)), Commit(2), Commit(1)];
            && Run(steps).calls == map[1 := Ended(Success(())), 2 := Ended(Success(()))]
            && Register(Run(steps[..4]).db, a).Failure? && !TrustKept(Run(steps).db.routes)
  {
    hide Run, Validates, WithDefaults, RouteRef.String, Register, TrustKept;
    assert NameOk("a") && NameOk("b") && "a"[0] != "b"[0];
    SampleValid("plugin", "a", [PluginRef("b")], TRUST_L1);
    SampleValid("plugin", "b", [], TRUST_L3);
    Interrupted(Sample("plugin", "a", [PluginRef("b")], TRUST_L1), Sample("plugin", "b", [], TRUST_L3));
  }

  /** A committed removal leaves all routes that require the removed one orphaned exactly when those not orphaned before had been read. */
  lemma RemovalMarksAllIff(db: Db, ref: RouteRef, dependents: seq<RouteRef>)
    requires Keyed(db.routes) && Has(db.routes, ref)
    ensures var after := RemoveTx(db, ref, dependents).value.routes;
            (forall x :: Has(after, x) && ref in Lookup(after, x).requirements ==> Lookup(after, x).state == STATE_ORPHANED)
            <==> (forall x :: x != ref && Has(db.routes, x) && ref in Lookup(db.routes, x).requirements ==>
                    x in dependents || Lookup(db.routes, x).state == STATE_ORPHANED)
  {
    var after := RemoveTx(db, ref, dependents).value.routes;
    hide Keyed, RemoveTx, RouteRef.String, Has, Lookup;
    forall x
      ensures Has(after, x) <==> x != ref && Has(db.routes, x)
      ensures Has(after, x) ==> Lookup(after, x).requirements == Lookup(db.routes, x).requirements
                                && Lookup(after, x).state == if x in dependents then STATE_ORPHANED else Lookup(db.routes, x).state
    { RemoveTxExact(db, ref, dependents, x); }
    if forall x :: Has(after, x) && ref in Lookup(after, x).requirements ==> Lookup(after, x).state == STATE_ORPHANED {
      forall x | x != ref && Has(db.routes, x) && ref in Lookup(db.routes, x).requirements
        ensures x in dependents || Lookup(db.routes, x).state == STATE_ORPHANED
      {
        assert Has(after, x);
      }
    }
  }

  /**
   A removal of `a` reads that nothing requires it; `d`, which does, is registered before the removal is committed, and is
   left unmarked above the removed route.
   */
  lemma RemovalMissesDependent()
    ensures var a, d := Sample("plugin", "a", [], TRUST_L1), Sample("plugin", "d", [PluginRef("a")], TRUST_L1);
            var steps := Alone(1, Registering(a)) + [Begin(2, Removing(a.Ref())), Check(2)] + Alone(3, Registering(d)) + [Commit(2)];
            var after := Run(steps).db.routes;
            && !Has(after, a.Ref()) && Has(after, d.Ref()) && a.Ref() in Lookup(after, d.Ref()).requirements
            && Lookup(after, d.Ref()).state != STATE_ORPHANED
  {
    hide Run, Validates, WithDefaults, RouteRef.String, RouteKey, Alone, Next, Has, Lookup, Keyed, Consistent, Apply, AllL1;
    var a, d := Sample("plugin", "a", [], TRUST_L1), Sample("plugin", "d", [PluginRef("a")], TRUST_L1);
    assert NameOk("a") && NameOk("d") && "a"[0] != "d"[0] && a.Ref() != d.Ref();
    assert d.requirements[0] == a.Ref() && STATE_INACTIVE[0] != STATE_ORPHANED[0];
    SampleValid("plugin", "a", [], TRUST_L1);
    SampleValid("plugin", "d", [PluginRef("a")], TRUST_L1);
    NothingThere();
    var one := AnotherRegistered(EmptyDb(), a);
    var two := AnotherRegistered(one, d);
    ConsistentBuckets(two);
    NothingRequires(one, a);
    MissedSteps(a, d, one, two);
    RemoveTxExact(two, a.Ref(), [], d.Ref());
    RemoveTxExact(two, a.Ref(), [], a.Ref());
    assert RemoveTx(two, a.Ref(), []).Success? by { RemovesStored(two, a.Ref()); }
  }

  lemma RemovesStored(db: Db, ref: RouteRef)
    requires Has(db.routes, ref)
    ensures RemoveTx(db, ref, []).Success?
  {}

  lemma NothingRequires(db: Db, a: Route)
    requires Consistent(db) && a.requirements == [] && forall x :: Has(db.routes, x) ==> Lookup(db.routes, x) == a
    ensures DependentsOf(db, a.Ref()) == []
  {
    hide Consistent, RouteRef.String, DependentsAt;
    NoDependentsIff(db, a.Ref());
    assert a.DepKeys() == [];
  }

  lemma MissedSteps(a: Route, d: Route, one: Db, two: Db)
    requires one == Apply(EmptyDb(), OpRegister(a)) && two == Apply(one, OpRegister(d)) && DependentsOf(one, a.Ref()) == []
    ensures var steps := Alone(1, Registering(a)) + [Begin(2, Removing(a.Ref())), Check(2)] + Alone(3, Registering(d)) + [Commit(2)];
            Run(steps).db == var t := RemoveTx(two, a.Ref(), []); if t.Success? then t.value else two
  {
    hide Alone, Apply, RunFrom, RemoveTx, DependentsOf, Attempt;
    var first, read, second, last := Alone(1, Registering(a)), [Begin(2, Removing(a.Ref())), Check(2)], Alone(3, Registering(d)), [Commit(2)];
    RunAppend(Initial(), first + read + second, last);
    RunAppend(Initial(), first + read, second);
    RunAppend(Initial(), first, read);
    AloneIsAtomic(Initial(), 1, Registering(a));
    var s := RunFrom(Initial(), first);
    RunCons(s, read[0], [read[1]]);
    assert [read[0]] + [read[1]] == read && [read[1]] + [] == [read[1]];
    RunCons(Next(s, read[0]), read[1], []);
    var t := RunFrom(s, read);
    NothingMore(Next(Next(s, read[0]), read[1]));
    assert Refs([]) == [];
    assert t.db == one && 3 !in t.calls && t.calls[2] == Cleared(Removing(a.Ref()), []);
    AloneIsAtomic(t, 3, Registering(d));
    var u := RunFrom(t, second);
    RunCons(u, last[0], []);
    assert [last[0]] + [] == last;
    NothingMore(Next(u, last[0]));
    CommitAlone(u, 2);
  }

  lemma NothingMore(s: State)
    ensures RunFrom(s, []) == s
  {}
}

/**
 The lazily initialising service container under concurrent use. `Get` holds the lock twice, once to look up and once
 to commit, and runs the provider in between without it; every interleaving of these steps is a run.
 */
module ServiceContainer {
  import opened Wrappers

  type Key = string
  type Instance = nat
  type CallId = nat

  datatype GetError = NotRegistered | ProviderFailed

  /** Registrations are numbered, so that an instance can be told from those of an earlier provider; no step looks at a number. */
  type Registration = nat

  /** Where one call of `Get` stands, and whose provider it runs. */
  datatype Progress =
    | Providing(key: Key, of: Registration)
    | Made(key: Key, of: Registration, instance: Instance)
    | Returned(key: Key, result: Result<Instance, GetError>)

  datatype Cached = Cached(instance: Instance, of: Registration)

  datatype State = State(providers: map<Key, Registration>, instances: map<Key, Cached>, calls: map<CallId, Progress>, issued: Registration)

  datatype Step =
    | Provide(key: Key)
    | LookUp(call: CallId, key: Key)
    | ProviderReturns(call: CallId, made: Option<Instance>)
    | Commit(call: CallId)
    | Unregister(key: Key)

  function Initial(): State {
    State(map[], map[], map[], 0)
  }

  /** A step that does not apply leaves the state alone. */
  function Next(s: State, step: Step): State {
    match step
    case Provide(key) =>
      if key in s.providers then s else s.(providers := s.providers[key := s.issued], issued := s.issued + 1)
    case LookUp(call, key) =>
      if call in s.calls then s
      else if key in s.instances then s.(calls := s.calls[call := Returned(key, Success(s.instances[key].instance))])
      else if key !in s.providers then s.(calls := s.calls[call := Returned(key, Failure(NotRegistered))])
      else s.(calls := s.calls[call := Providing(key, s.providers[key])])
    case ProviderReturns(call, made) =>
      if call !in s.calls || !s.calls[call].Providing? then s
      else
        var key := s.calls[call].key;
        s.(calls := s.calls[call := match made
                                    case Some(instance) => Made(key, s.calls[call].of, instance)
                                    case None => Returned(key, Failure(ProviderFailed))])
    case Commit(call) =>
      if call !in s.calls || !s.calls[call].Made? then s
      else
        var key, instance := s.calls[call].key, s.calls[call].instance;
        if key in s.instances then s.(calls := s.calls[call := Returned(key, Success(s.instances[key].instance))])
        else s.(instances := s.instances[key := Cached(instance, s.calls[call].of)],
                calls := s.calls[call := Returned(key, Success(instance))])
    case Unregister(key) => s.(providers := s.providers - {key}, instances := s.instances - {key})
  }

  function Run(steps: seq<Step>): State {
    if steps == [] then Initial() else Next(Run(steps[..|steps| - 1]), steps[|steps| - 1])
  }

  predicate Got(s: State, call: CallId, key: Key, instance: Instance) {
    call in s.calls && s.calls[call] == Returned(key, Success(instance))
  }

  ghost predicate Unregisters(steps: seq<Step>, key: Key) {
    Unregister(key) in steps
  }

  /** Every successful call for `key` returned the cached instance, and only registered services are under way. */
  ghost predicate Coherent(s: State, key: Key) {
    && (forall call, instance :: Got(s, call, key, instance) ==> key in s.instances && s.instances[key].instance == instance)
    && (key in s.instances ==> key in s.providers)
    && (forall call :: call in s.calls && s.calls[call].key == key && !s.calls[call].Returned? ==> key in s.providers)
  }

  lemma NextCoherent(s: State, step: Step, key: Key)
    requires Coherent(s, key) && step != Unregister(key)
    ensures Coherent(Next(s, step), key)
  {
    var t := Next(s, step);
    forall call, instance | Got(t, call, key, instance) ensures key in t.instances && t.instances[key].instance == instance {
      if Got(s, call, key, instance) {
        assert key in s.instances;
      }
    }
  }

  lemma {:induction false} RunCoherent(steps: seq<Step>, key: Key)
    requires !Unregisters(steps, key)
    ensures Coherent(Run(steps), key)
  {
    if steps != [] {
      var n := |steps| - 1;
      assert steps == steps[..n] + [steps[n]];
      RunCoherent(steps[..n], key);
      NextCoherent(Run(steps[..n]), steps[n], key);
    }
  }

  /**
   A `Get` that nothing interrupts: a cached instance is returned at once; otherwise the provider of a registered service is
   run, and what it makes is cached and returned. A provider that fails leaves nothing behind.
   */
  lemma GetAlone(s: State, call: CallId, key: Key, made: Option<Instance>)
    requires call !in s.calls
    ensures var t := Next(Next(Next(s, LookUp(call, key)), ProviderReturns(call, made)), Commit(call));
            var result := if key in s.instances then Success(s.instances[key].instance)
                          else if key !in s.providers then Failure(NotRegistered)
                          else if made.None? then Failure(ProviderFailed) else Success(made.value);
            && t.calls == s.calls[call := Returned(key, result)] && t.providers == s.providers
            && t.instances == if key !in s.instances && key in s.providers && made.Some?
                              then s.instances[key := Cached(made.value, s.providers[key])] else s.instances
  {}

  /** Providing a service that is registered changes nothing; unregistering one takes its provider and its instance. */
  lemma RegistrationSteps(s: State, key: Key, other: Key)
    ensures var t := Next(s, Provide(key));
            && key in t.providers && t.instances == s.instances && t.calls == s.calls
            && (key in s.providers ==> t == s) && (other != key ==> (other in t.providers <==> other in s.providers))
    ensures var t := Next(s, Unregister(key));
            && key !in t.providers && key !in t.instances && t.calls == s.calls
            && (other != key ==> (other in t.providers <==> other in s.providers) && (other in t.instances <==> other in s.instances))
            && (other in t.instances ==> t.instances[other] == s.instances[other])
  {}

  /** However lookups, provider runs and commits interleave, all successful calls for a type return one instance. */
  lemma OneInstance(steps: seq<Step>, key: Key, a: CallId, b: CallId, x: Instance, y: Instance)
    requires !Unregisters(steps, key)
    requires Got(Run(steps), a, key, x) && Got(Run(steps), b, key, y)
    ensures x == y
  {
    RunCoherent(steps, key);
  }

  lemma NextKeepsAnswer(s: State, step: Step, call: CallId, key: Key, instance: Instance)
    requires Got(s, call, key, instance)
    ensures Got(Next(s, step), call, key, instance)
  {}

  /** An answer, once given, and a cached instance stay as they are while the service is not unregistered. */
  lemma {:induction false} AnswersStay(steps: seq<Step>, more: seq<Step>, key: Key, call: CallId, instance: Instance)
    requires !Unregisters(steps + more, key) && Got(Run(steps), call, key, instance)
    ensures Got(Run(steps + more), call, key, instance)
    ensures key in Run(steps + more).instances && Run(steps + more).instances[key].instance == instance
    decreases |more|
  {
    hide Next;
    if more == [] {
      assert steps + more == steps;
      RunCoherent(steps, key);
    } else {
      var n := |more| - 1;
      var all := steps + more;
      assert all[..|all| - 1] == steps + more[..n] && all[|all| - 1] == more[n];
      AnswersStay(steps, more[..n], key, call, instance);
      NextKeepsAnswer(Run(steps + more[..n]), more[n], call, key, instance);
      RunCoherent(all, key);
    }
  }

  /** Two providers may run for one type; both callers still get the first committed instance. */
  lemma BothProvidersRun(key: Key) returns (steps: seq<Step>)
    ensures !Unregisters(steps, key)
    ensures ProviderReturns(1, Some(10)) in steps && ProviderReturns(2, Some(20)) in steps
    ensures Got(Run(steps), 1, key, 10) && Got(Run(steps), 2, key, 10)
  {
    hide Run;
    var calls, answers, commits := [Provide(key), LookUp(1, key), LookUp(2, key)],
                                   [ProviderReturns(2, Some(20)), ProviderReturns(1, Some(10))], [Commit(1), Commit(2)];
    RunThree(Provide(key), LookUp(1, key), LookUp(2, key));
    assert Run(calls) == State(map[key := 0], map[], map[1 := Providing(key, 0), 2 := Providing(key, 0)], 1);
    RunTwo(calls, answers[0], answers[1]);
    assert Run(calls + answers) == State(map[key := 0], map[], map[1 := Made(key, 0, 10), 2 := Made(key, 0, 20)], 1);
    RunTwo(calls + answers, Commit(1), Commit(2));
    steps := calls + answers + commits;
    assert ProviderReturns(2, Some(20)) in answers && ProviderReturns(1, Some(10)) in answers;
  }

  lemma RunTwo(steps: seq<Step>, a: Step, b: Step)
    ensures Run(steps + [a, b]) == Next(Next(Run(steps), a), b)
  {
    assert (steps + [a, b])[..|steps| + 1] == steps + [a];
    assert (steps + [a])[..|steps|] == steps;
  }

  lemma RunThree(a: Step, b: Step, c: Step)
    ensures Run([a, b, c]) == Next(Next(Next(Initial(), a), b), c)
  {
    assert [a, b, c] == [a] + [b, c];
    assert [a][..0] == [];
    RunTwo([a], b, c);
  }

  lemma RunPrefix(steps: seq<Step>, k: nat)
    requires k < |steps|
    ensures Run(steps[..0]) == Initial() && Run(steps[..k + 1]) == Next(Run(steps[..k]), steps[k])
  {
    assert steps[..k + 1][..k] == steps[..k];
  }

  /** A call under way while its service is unregistered caches an instance of a service that is no longer registered. */
  lemma StaleCommit(key: Key) returns (steps: seq<Step>)
    ensures key in Run(steps).instances && key !in Run(steps).providers
  {
    hide Run;
    steps := [Provide(key), LookUp(1, key), Unregister(key), ProviderReturns(1, Some(10)), Commit(1)];
    RunPrefix(steps, 0);
    RunPrefix(steps, 1);
    RunPrefix(steps, 2);
    assert Run(steps[..3]) == State(map[], map[], map[1 := Providing(key, 0)], 1);
    RunPrefix(steps, 3);
    RunPrefix(steps, 4);
    assert steps[..5] == steps;
    assert key in Run(steps).instances && key !in Run(steps).providers;
  }

  // ----- unregistering -----

  /** A call has looked `key` up and not answered yet. */
  predicate UnderWay(s: State, call: CallId, key: Key) {
    call in s.calls && s.calls[call].key == key && !s.calls[call].Returned?
  }

  /** An instance is cached for a service that is not registered. */
  predicate Stale(s: State, key: Key) {
    key in s.instances && key !in s.providers
  }

  /** Position `i` is an Unregister of `key`, and `key` is neither registered nor unregistered again. */
  ghost predicate LastlyUnregistered(steps: seq<Step>, key: Key, i: nat) {
    i < |steps| && steps[i] == Unregister(key)
    && forall m :: i < m < |steps| ==> steps[m] != Provide(key) && steps[m] != Unregister(key)
  }

  /** A call under way at that Unregister commits, at position `j`, the instance it made. */
  ghost predicate LateCommit(steps: seq<Step>, key: Key, i: nat, j: nat) {
    && LastlyUnregistered(steps, key, i) && i < j < |steps| && steps[j].Commit?
    && UnderWay(Run(steps[..i]), steps[j].call, key)
    && steps[j].call in Run(steps[..j]).calls && Run(steps[..j]).calls[steps[j].call].Made?
    && Run(steps[..j]).calls[steps[j].call].key == key
  }

  lemma LastlyInFront(steps: seq<Step>, key: Key, i: nat)
    requires steps != [] && LastlyUnregistered(steps[..|steps| - 1], key, i)
    requires steps[|steps| - 1] != Provide(key) && steps[|steps| - 1] != Unregister(key)
    ensures LastlyUnregistered(steps, key, i) && steps[..|steps| - 1][..i] == steps[..i]
  {
    var n := |steps| - 1;
    forall m | i < m < |steps| ensures steps[m] != Provide(key) && steps[m] != Unregister(key) {
      if m < n { assert steps[..n][m] == steps[m]; }
    }
  }

  /** A call under way for a service that is not registered has been so since the last Unregister. */
  lemma {:induction false} UnderWaySince(steps: seq<Step>, call: CallId, key: Key) returns (i: nat)
    requires UnderWay(Run(steps), call, key) && key !in Run(steps).providers
    ensures LastlyUnregistered(steps, key, i) && UnderWay(Run(steps[..i]), call, key)
  {
    var n := |steps| - 1;
    if steps[n] == Unregister(key) {
      i := n;
    } else {
      i := UnderWaySince(steps[..n], call, key);
      LastlyInFront(steps, key, i);
    }
  }

  lemma {:induction false} StaleSince(steps: seq<Step>, key: Key) returns (i: nat, j: nat)
    requires Stale(Run(steps), key)
    ensures LateCommit(steps, key, i, j)
  {
    var n := |steps| - 1;
    var before := Run(steps[..n]);
    if Stale(before, key) {
      i, j := StaleSince(steps[..n], key);
      LastlyInFront(steps, key, i);
      assert steps[..n][..j] == steps[..j];
    } else {
      var call := steps[n].call;
      i := UnderWaySince(steps[..n], call, key);
      LastlyInFront(steps, key, i);
      j := n;
    }
  }

  lemma {:induction false} UnregisteredStays(steps: seq<Step>, key: Key, i: nat, j: nat, k: nat)
    requires LateCommit(steps, key, i, j) && i < k <= |steps|
    ensures key !in Run(steps[..k]).providers
    ensures k > j ==> key in Run(steps[..k]).instances
    decreases k
  {
    hide Run;
    RunPrefix(steps, k - 1);
    if k > i + 1 { UnregisteredStays(steps, key, i, j, k - 1); }
  }

  /**
   After any run, an instance is cached for an unregistered service exactly when a call that was under way at the last
   Unregister commits after it without the service being registered again.
   */
  lemma StaleIff(steps: seq<Step>, key: Key)
    ensures Stale(Run(steps), key) <==> exists i, j :: LateCommit(steps, key, i, j)
  {
    hide Run, LateCommit;
    if Stale(Run(steps), key) {
      var i, j := StaleSince(steps, key);
    }
    if i, j :| LateCommit(steps, key, i, j) {
      LateCommitPositions(steps, key, i, j);
      UnregisteredStays(steps, key, i, j, |steps|);
      assert steps[..|steps|] == steps;
    }
  }

  lemma LateCommitPositions(steps: seq<Step>, key: Key, i: nat, j: nat)
    requires LateCommit(steps, key, i, j)
    ensures i < j < |steps| && steps[i] == Unregister(key) && steps[j].Commit? && UnderWay(Run(steps[..i]), steps[j].call, key)
  {}

  // ----- instances of an earlier registration -----

  /** The cached instance was not made by the provider that is registered now. */
  predicate Outdated(s: State, key: Key) {
    key in s.instances && (key !in s.providers || s.providers[key] != s.instances[key].of)
  }

  /**
   A call that was under way when `key` was unregistered, at position `i`, is the first to commit an instance afterwards, at
   position `j`, and `key` is not unregistered again.
   */
  ghost predicate ForeignCommit(steps: seq<Step>, key: Key, i: nat, j: nat) {
    && i < j < |steps| && steps[i] == Unregister(key) && steps[j].Commit?
    && UnderWay(Run(steps[..i]), steps[j].call, key)
    && Commits(Run(steps[..j]), steps[j].call, key)
    && forall m :: j < m < |steps| ==> steps[m] != Unregister(key)
  }

  /** The call's next commit caches its instance. */
  predicate Commits(s: State, call: CallId, key: Key) {
    call in s.calls && s.calls[call].Made? && s.calls[call].key == key && key !in s.instances
  }

  lemma UnregisterLeavesCalls(s: State, key: Key)
    ensures Next(s, Unregister(key)).calls == s.calls
  {}

  lemma NextUnderWay(s: State, step: Step, call: CallId, key: Key)
    requires UnderWay(Next(s, step), call, key)
    ensures || (UnderWay(s, call, key) && s.calls[call].of == Next(s, step).calls[call].of)
            || (key in s.providers && s.providers[key] == Next(s, step).calls[call].of && Next(s, step).providers == s.providers)
    ensures step != Unregister(key) && key in s.providers ==>
              key in Next(s, step).providers && Next(s, step).providers[key] == s.providers[key]
  {}

  /** A call under way that runs another provider than the registered one met an Unregister. */
  lemma {:induction false} MetUnregister(steps: seq<Step>, call: CallId, key: Key) returns (i: nat)
    requires UnderWay(Run(steps), call, key)
    requires key !in Run(steps).providers || Run(steps).providers[key] != Run(steps).calls[call].of
    ensures i < |steps| && steps[i] == Unregister(key) && UnderWay(Run(steps[..i]), call, key)
  {
    var n := |steps| - 1;
    if steps[n] == Unregister(key) {
      i := n;
      UnregisterLeavesCalls(Run(steps[..n]), key);
    } else {
      hide Next;
      NextUnderWay(Run(steps[..n]), steps[n], call, key);
      i := MetUnregister(steps[..n], call, key);
      assert steps[..n][..i] == steps[..i];
    }
  }

  lemma NextCached(s: State, step: Step, key: Key)
    requires key in Next(s, step).instances
    ensures step != Unregister(key)
    ensures if key in s.instances then Next(s, step).instances[key] == s.instances[key]
            else step.Commit? && Commits(s, step.call, key) && Next(s, step).instances[key].of == s.calls[step.call].of
  {}

  /** A cached instance was committed by a call, and the service has not been unregistered since. */
  lemma {:induction false} CachedSince(steps: seq<Step>, key: Key) returns (j: nat)
    requires key in Run(steps).instances
    ensures j < |steps| && steps[j].Commit? && Commits(Run(steps[..j]), steps[j].call, key)
    ensures Run(steps[..j]).calls[steps[j].call].of == Run(steps).instances[key].of
    ensures forall m :: j < m < |steps| ==> steps[m] != Unregister(key)
  {
    var n := |steps| - 1;
    var before := Run(steps[..n]);
    hide Next;
    NextCached(before, steps[n], key);
    if key in before.instances {
      j := CachedSince(steps[..n], key);
      assert steps[..n][..j] == steps[..j];
      assert forall m :: j < m < n ==> steps[..n][m] == steps[m];
    } else {
      j := n;
    }
  }

  /** A registration stays as long as the service is not unregistered. */
  lemma {:induction false} RegistrationStays(steps: seq<Step>, key: Key, j: nat, k: nat)
    requires j <= k <= |steps| && key in Run(steps[..j]).providers
    requires forall m :: j <= m < k ==> steps[m] != Unregister(key)
    ensures key in Run(steps[..k]).providers && Run(steps[..k]).providers[key] == Run(steps[..j]).providers[key]
    decreases k
  {
    hide Run;
    if j < k {
      RunPrefix(steps, k - 1);
      RegistrationStays(steps, key, j, k - 1);
    }
  }

  /** Numbers in use have been issued. */
  ghost predicate Issued(s: State) {
    && (forall key :: key in s.providers ==> s.providers[key] < s.issued)
    && (forall call :: call in s.calls && !s.calls[call].Returned? ==> s.calls[call].of < s.issued)
  }

  lemma NextIssued(s: State, step: Step)
    requires Issued(s)
    ensures Issued(Next(s, step))
  {}

  lemma {:induction false} RunIssued(steps: seq<Step>)
    ensures Issued(Run(steps))
  {
    if steps != [] {
      hide Next, Issued;
      RunIssued(steps[..|steps| - 1]);
      NextIssued(Run(steps[..|steps| - 1]), steps[|steps| - 1]);
    } else {
      assert Issued(Initial());
    }
  }

  /** After an Unregister the key is registered, if at all, under a new number; a call that was under way keeps its own. */
  lemma {:induction false} NewerSince(steps: seq<Step>, key: Key, call: CallId, i: nat, k: nat)
    requires i < k <= |steps| && steps[i] == Unregister(key) && UnderWay(Run(steps[..i]), call, key)
    ensures Run(steps[..k]).issued >= Run(steps[..i]).issued
    ensures key in Run(steps[..k]).providers ==> Run(steps[..k]).providers[key] >= Run(steps[..i]).issued
    ensures call in Run(steps[..k]).calls
    ensures !Run(steps[..k]).calls[call].Returned? ==> Run(steps[..k]).calls[call].of == Run(steps[..i]).calls[call].of
    decreases k
  {
    hide Run;
    RunPrefix(steps, k - 1);
    if k > i + 1 { NewerSince(steps, key, call, i, k - 1); }
  }

  /** What a commit caches stays while the service is not unregistered. */
  lemma {:induction false} CommitStays(steps: seq<Step>, key: Key, j: nat, k: nat)
    requires j < k <= |steps| && steps[j].Commit? && Commits(Run(steps[..j]), steps[j].call, key)
    requires forall m :: j < m < k ==> steps[m] != Unregister(key)
    ensures key in Run(steps[..k]).instances
    ensures Run(steps[..k]).instances[key].of == Run(steps[..j]).calls[steps[j].call].of
    decreases k
  {
    hide Run;
    RunPrefix(steps, k - 1);
    if k > j + 1 { CommitStays(steps, key, j, k - 1); }
  }

  /**
   After any run, the cached instance is not one of the current registration exactly when a call that was under way at an
   Unregister was the first to commit after it.
   */
  lemma OutdatedIff(steps: seq<Step>, key: Key)
    ensures Outdated(Run(steps), key) <==> exists i, j :: ForeignCommit(steps, key, i, j)
  {
    hide Run, ForeignCommit;
    assert steps[..|steps|] == steps;
    if Outdated(Run(steps), key) {
      var j := CachedSince(steps, key);
      var before, call := Run(steps[..j]), steps[j].call;
      if key in before.providers && before.providers[key] == before.calls[call].of {
        RegistrationStays(steps, key, j, |steps|);
      }
      var i := MetUnregister(steps[..j], call, key);
      assert steps[..j][..i] == steps[..i];
      IsForeign(steps, key, i, j);
    }
    if i, j :| ForeignCommit(steps, key, i, j) {
      ForeignOutdated(steps, key, i, j);
    }
  }

  lemma IsForeign(steps: seq<Step>, key: Key, i: nat, j: nat)
    requires i < j < |steps| && steps[i] == Unregister(key) && steps[j].Commit?
    requires UnderWay(Run(steps[..i]), steps[j].call, key) && Commits(Run(steps[..j]), steps[j].call, key)
    requires forall m :: j < m < |steps| ==> steps[m] != Unregister(key)
    ensures ForeignCommit(steps, key, i, j)
  {}

  lemma ForeignOutdated(steps: seq<Step>, key: Key, i: nat, j: nat)
    requires ForeignCommit(steps, key, i, j)
    ensures Outdated(Run(steps), key) && steps[i] == Unregister(key) && UnderWay(Run(steps[..i]), steps[j].call, key)
  {
    hide Run;
    assert steps[..|steps|] == steps;
    RunIssued(steps[..i]);
    NewerSince(steps, key, steps[j].call, i, j);
    NewerSince(steps, key, steps[j].call, i, |steps|);
    CommitStays(steps, key, j, |steps|);
  }

  /** An instance made by a withdrawn provider is cached, and returned, under the next registration. */
  lemma OldInstanceUnderNewRegistration(key: Key) returns (steps: seq<Step>)
    ensures key in Run(steps).providers && Outdated(Run(steps), key) && Got(Run(steps), 2, key, 10)
    ensures |steps| == 7 && steps[3] == Provide(key) && steps[4] == ProviderReturns(1, Some(10))
  {
    hide Run;
    steps := [Provide(key), LookUp(1, key), Unregister(key), Provide(key), ProviderReturns(1, Some(10)), Commit(1), LookUp(2, key)];
    RunPrefix(steps, 0);
    RunPrefix(steps, 1);
    RunPrefix(steps, 2);
    assert Run(steps[..3]) == State(map[], map[], map[1 := Providing(key, 0)], 1);
    RunPrefix(steps, 3);
    RunPrefix(steps, 4);
    RunPrefix(steps, 5);
    RunPrefix(steps, 6);
    assert steps[..7] == steps;
  }

  /** No call for `key` is under way when step `i` is taken. */
  ghost predicate Quiet(steps: seq<Step>, key: Key, i: nat)
    requires i <= |steps|
  {
    forall call :: !UnderWay(Run(steps[..i]), call, key)
  }

  /**
   So the cached instance was made by the registered provider as long as every Unregister meets no call under way; in
   particular the service is registered.
   */
  lemma NeverStale(steps: seq<Step>, key: Key)
    requires forall i :: 0 <= i < |steps| && steps[i] == Unregister(key) ==> Quiet(steps, key, i)
    ensures !Outdated(Run(steps), key) && !Stale(Run(steps), key)
  {
    hide Run, ForeignCommit;
    OutdatedIff(steps, key);
    forall i, j ensures !ForeignCommit(steps, key, i, j) {
      if ForeignCommit(steps, key, i, j) {
        ForeignPositions(steps, key, i, j);
        ForeignOutdated(steps, key, i, j);
      }
    }
  }

  lemma ForeignPositions(steps: seq<Step>, key: Key, i: nat, j: nat)
    requires ForeignCommit(steps, key, i, j)
    ensures i < j < |steps|
  {}
}

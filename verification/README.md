# Dependency graph, lifecycle and small cores of ARoute, in Dafny

ARoute keeps plugins, services, hooks, themes and middleware as *routes* in one registry. Four pieces of code read the
same requires-graph: the cross-type resolver, the persistent dependency indexes with impact analysis, the in-memory
impact analysis, and the plugin lifecycle manager with a topological sort of its own. This project models them and proves
that each does what it is for, that they agree with one another, and that they keep their invariants over whole runs.
Four smaller cores are modelled beside them: the SQL splitter of the migration runner, the request limiter, topic
matching with filter subscriptions, and the service container under concurrent use.

`dafny verify dfyconfig.toml` checks everything.

## How the model is laid out

- `Lexical`, `Graph`: strings in byte order and the one ascending listing of a finite set; paths, cycles, topological
  sequences, and the pigeonhole argument that a walk that cannot leave a finite set closes a cycle.
- `Kahn`: the layered sort as a run over a graph, and the loop the code executes, which counts degrees over a multigraph
  because a route may require the same key twice. Both sorts of the source (resolver and lifecycle fallback) call it.
- `Routes`, `Resolver`, `ResolverTheorems`: routes and their keys; `ResolveOrder` statement by statement, and what it
  decides.
- `Database`, `IndexTheorems`, `RegistryTheorems`, `BoltRegistry`: what each committed transaction does to the buckets,
  the class whose methods perform it, and the invariant that both indexes agree with a scan of the stored routes.
- `RegistryFields`: what is valid, which error refuses a write, what each write stores field by field, and the order of a
  listing, all in terms of the fields themselves.
- `TrustTheorems`, `Interleavings`, `RegistryGaps`: exactly which writes keep every stored requirement within its trust
  level, the same for calls whose checks and transactions interleave, and short runs of accepted writes that break trust or
  the indexes.
- `Reachability`, `Impact`, `ImpactTheorems`, `ImpactGaps`: depth-first impact over the index, breadth-first impact over the
  list, why both are reachability, and where their verdicts on orphans part.
- `Lifecycle`, `LifecycleManager`: the plugin table, and the manager class with a ghost log of the calls made on plugin
  objects.
- `LifecycleLoading`, `LifecycleOutcomes`: exactly what loading adds, how dependencies are read, the answer of every
  hot-plug operation, the order of the calls in a Start, and when the manager's own sort succeeds.
- `LifecycleTheorems`, `LifecycleOrders`, `LifecycleShutdown`, `LifecycleRuns`, `LifecycleGaps`: Start over any order, the
  orders it can build with and without a cross-type resolver, Stop over any order, invariants over whole runs, and the
  inputs on which Start and Stop leave a plugin active above a requirement that is not.
- `StartupAgreement`, `RegistryStartup`, `StartupGaps`: how the manager's own sort and the registry's order relate, what a
  manager loads and which order it builds from a registry, over whole runs, and the inputs on which they part.
- `SqlSplitter`, `RateLimiter`, `Topics`, `EventBus`, `ServiceContainer`.

Go maps are ranged over in arbitrary order; the model picks the next key with `:|`, so every result proved here holds for
every iteration order. A transaction is a value computed from the old database and assigned at the end, so a failed one
leaves it in place. Callbacks of plugins answer through outcome functions indexed by position, so statements hold for
every pattern of failures.

## Where the code is weaker than its descriptions

Each of these is a lemma with a concrete input, or an exact condition.

- Two routes under one reference make `ResolveOrder` report a dependency cycle among nothing
  (`DuplicateReportsEmptyCycle`); an empty list is reported exactly when there is no cycle (`CycleReportExact`).
- `HotSwap` writes the new route into the old route's bucket and does not look at what the new key held. It keeps the
  indexes exact if and only if the type is unchanged and the new key is the old one, free, or held by a route without
  requirements (`HotSwapKeepsIndexesIff`). Two accepted writes, or three, from the empty database end with stale indexes
  (`TypeChangeBreaksIndexes`, `CollisionBreaksIndexes`).
- Registration compares trust with what is stored already, counts an absent provider as L1, and does not look at the
  routes that wait for the new one: two accepted registrations leave an L1 plugin requiring an L3 plugin
  (`TwoRegistrationsBreakTrust`). A registration, or a hot swap, keeps trust if and only if the stored routes requiring the
  place it fills may trust the new level (`RegisterKeepsTrustIff`, `HotSwapKeepsTrustIff`, `RunsKeepTrustIff`); along chains
  it holds while it is kept (`StoredChainsRespectTrust`), and always once the registry resolves
  (`ChainsRespectTrustAndOrder`, `PluginChains`).
- A check made before the write lock is taken may be out of date at the commit. Over every interleaving trust is kept if and
  only if each committed write finds dependents that may trust it and requirements it may trust at that moment
  (`InterleavingsKeepTrustIff`); `StaleCheckBreaksTrust` is a run of accepted calls that breaks it. The indexes do not depend
  on what was checked (`InterleavingsKeepIndexesIff`). A removal marks all routes that require the removed one if and only
  if it had read those not orphaned already (`RemovalMarksAllIff`, `RemovalMissesDependent`).
- The two impact analyses contradict each other on orphans, in both directions (`OrphanedByListOnly`,
  `OrphanedByIndexOnly`): they agree on a direct dependent if and only if it has another stored requirement exactly when an
  enabled stored route provides one of its other requirements. An indirect dependent is never orphaned for the search over
  the index, and is for the search over the list unless such a provider is found, seen from the route it was met from
  (`VerdictsAgreeIff`, `IndirectOrphanedByListOnly`).
- The list-based analysis means to ask for other providers of each requirement (core/registry/impact.go:39). It accepts one
  provider of any (`OneProviderIsEnough`), and orphans a dependent for which there is nothing else to provide
  (`NoOtherRequirementOrphans`). It does what is meant for an affected route, direct or not, if and only if there are other
  requirements and all of them or none have a provider (`EachReadingIff`).
- `Start` can leave a plugin active above a requirement that is not: its second phase does not look at requirements again,
  so the `Start()` of the requirement may have failed (`StartFailureLeavesGap`); with a cross-type resolver, as
  cmd/aroute/serve.go:202 builds the manager, the requirement may never have been loaded (`UnloadedRequirementLeavesGap`),
  or come later in the order and not get through the first phase (`LateFailureLeavesGap`). These three are all:
  `StartKeepsClosedIff` gives the exact condition for every order of the loaded plugins, told from the table before
  Start and the answers, and `RunsStayClosedIff` carries it over whole runs.
- With such an order `Stop` also stops a requirement before its dependent (`StopOutOfOrder`); it keeps the active set closed
  at every step if and only if the reversed order reaches active dependents first (`StopStaysClosedIff`). It does over every
  run whose orders come from the manager's own sort (`OrderlyRunsStopInOrder`), and over every run of a manager that loads
  its plugins and takes its orders from a registry in which no two plugins bear one name and every requirement that is no
  plugin but bears a plugin's name comes with a way to that plugin (`RegistryRunsStopInOrder`).
- Without these two conditions the order built from a registry that resolves may fail: it puts requirements first if and only
  if no two stored plugins bear the name of one loaded plugin and every such borrowed name is in place in the registry's own
  order (`ResolvedOrderRespectsIff`). A plugin of another domain repeats the name of a default-domain one in
  `PluginStartupOrder` (core/registry/bolt_unified.go:150-154), so that a shutdown stops the latter under its dependent
  (`HomonymStopsOutOfOrder`). The manifest read back from a route keeps the names of its requirements and drops their types
  (core/registry/compat.go:40-42), so that the manager takes a required service for the plugin of that name
  (`SharedNameLeavesOrder`).
- `LoadAll` lists the plugins of all domains and asks whether each is enabled in the default domain alone
  (core/registry/compat.go:272-302). It gets to the end of the listing if and only if every stored plugin has a default-domain
  twin (`LoadsToTheEndIff`).
- A requirement with a version constraint is stored under a name that no valid route can have (core/registry/compat.go:76-81),
  so that the whole registry stops resolving (`OddNameNeverResolves`) while the manager's own sort accepts it
  (`ConstraintSplitsSorts`); `OrdersAgree` says exactly when the two agree.
- `Enable` accepts a failed plugin and then always refuses it, because the state table has no step from Failed to Starting,
  while `Retry` makes steps the table does not have: their exact success conditions are in `EnableRetryExact`.
- Entries that failed to load have a nil plugin object. `Stop` runs into one exactly when the order holds such an entry
  (`StopPanicsIff`), over whole runs exactly when the last Start with an order found one (`RunsGoDownIff`, with `Retry`);
  `StopReachesNilPlugin` is such a run.
- `**` matches zero or more topic segments, although its comment says one or more (`MatchIff`).
- A limiter lets through twice its limit in one interval of a window's length, for every limit and every window longer
  than one instant (`TwiceTheLimitHappens`; `OneInstantNeverMore` for the rest), and never more (`AtMostTwiceTheLimit`).
- A `Get` that is running its provider while the service is unregistered caches an instance of a service that no longer
  exists (`StaleCommit`), or of a withdrawn provider under the next registration (`OldInstanceUnderNewRegistration`). That is
  the only way: `StaleIff` and `OutdatedIff` say exactly after which runs there is such an instance.

## Model

| member | source | states |
|---|---|---|
| `Routes.RouteKeyInjective` | core/registry/bolt_unified.go:164-166 | bucket keys of validated routes identify domain and name |
| `Routes.RefStringIdentifies` | core/registry/route.go:114-116 | a reference of a known type whose string is a validated route's key is that route's reference, although references are not checked for slashes |
| `Routes.RefStringsCollide` | core/registry/route.go:114-116 | on references alone the encoding is ambiguous |
| `Lexical.SortDistinct` | core/registry/resolver.go:71 | sorting distinct keys, in whatever order they were met, gives the one listing of their set that runs upwards in byte order |
| `Lexical.LeqIff` | core/registry/resolver.go:71 | strings compare by the first character in which they differ, the smaller one first, and a prefix comes before what extends it |
| `Lexical.SortedOfUp` | core/registry/resolver.go:71-98 | the listing of a set runs upwards in that order |
| `Graph.PathRunsBackwards` | core/registry/resolver.go:73-90 | a requires-path that starts in a topological order runs strictly backwards through it |
| `Graph.TopologicalAvoidsCycles` | core/registry/resolver.go:92-104 | nothing that was ordered leads to a cycle |
| `Graph.StuckReachesCycle` | core/registry/resolver.go:92-104 | a node from which one can keep walking inside a finite set reaches a cycle |
| `Kahn.StepKeepsInv` | core/registry/resolver.go:73-90 | taking the head of the queue keeps: no repetitions, order topological, queue exactly the waiting nodes whose requirements are all met |
| `Kahn.OrderTopological` | core/registry/resolver.go:64-90 | the sort's outcome lists nodes once, each after everything it requires |
| `Kahn.OrderMaximal` | core/registry/resolver.go:73-90 | the sort stops only when every node whose requirements are all listed is listed too |
| `Kahn.LeftOutReachesCycle` | core/registry/resolver.go:92-104 | the nodes left out are exactly those that require their way to a cycle |
| `Kahn.OrderCompleteIff` | core/registry/resolver.go:92 | the length test detects exactly the cyclic graphs |
| `Kahn.OrderLayered` | core/registry/resolver.go:64-90 | the outcome is sorted by the position at which a node's last requirement is met, then by key |
| `Kahn.OrderTies` | core/registry/resolver.go:64-90 | of two nodes the one whose requirements are met by a shorter prefix comes first, and if every prefix meets those of both or of neither, the one earlier in byte order |
| `Kahn.LayeredUnique` | core/registry/resolver.go:64-90 | that rule leaves one order only, however the queue is kept |
| `Kahn.OrderWithout` | core/registry/resolver.go:64-90 | deleting a node nothing requires deletes it from the outcome and changes nothing else (the two runs simulate each other) |
| `Kahn.OrderPrefixed` | core/lifecycle/implementation.go:562-588 | a prefix common to all keys does not change the outcome |
| `Kahn.EdgeKeepsMirror` | core/registry/resolver.go:59-60 | recording a requirement on both sides keeps adjacency and requirement lists equal as bags, repetitions included |
| `Kahn.ZeroDegree` | core/registry/resolver.go:65-70 | collects exactly the keys of zero (or positive) degree, each once, in any iteration order |
| `Kahn.Release` | core/registry/resolver.go:78-84 | lowering the neighbours' degrees keeps each degree the number of outstanding requirements; the nodes that reach zero are those whose last requirement was the current node, each once |
| `Kahn.Drain` | core/registry/resolver.go:64-90 | the counting loop over the multigraph computes the order of the simple graph, and a degree stays positive exactly on nodes left out |
| `Resolver.BuildIndex` | core/registry/resolver.go:21-25 | the index holds the last route under each key |
| `Resolver.BuildGraph` | core/registry/resolver.go:32-62 | the scan reports the first faulty requirement; without fault, adjacency mirrors requirements and degrees count them with repetitions |
| `Resolver.Follow` | core/registry/resolver.go:106-111 | keys are mapped back position by position |
| `Resolver.ResolveOrder` | core/registry/resolver.go:16-112 | for every list of routes and every map iteration order the method returns `Resolve`, the function the theorems below are about |
| `ResolverTheorems.FirstFaultExact` | core/registry/resolver.go:38-57 | a fault names the first offending requirement of the first offending route, and which of the two faults it is |
| `ResolverTheorems.NoFaultIff` | core/registry/resolver.go:38-57 | with distinct references, no fault means every requirement is present, at a level not above that of the route requiring it |
| `ResolverTheorems.ResolvesIff` | core/registry/resolver.go:16-112 | success if and only if references are distinct, requirements present, no requirement has a higher level than the route requiring it, and the requires-graph is acyclic |
| `ResolverTheorems.ResolvedOrderIsValid` | core/registry/resolver.go:106-112 | on success the result is a permutation of the input with every dependency strictly before its dependents |
| `ResolverTheorems.FreeRoutesAscend` | core/registry/resolver.go:64-71 | resolved routes that require nothing come upwards in byte order of their keys |
| `ResolverTheorems.CycleReportExact` | core/registry/resolver.go:92-104 | the report lists, ascending, exactly the keys that require their way to a cycle; with distinct references it is not empty |
| `ResolverTheorems.DuplicateReportsEmptyCycle` | core/registry/resolver.go:92-104 | a repeated reference is reported as a cycle among nothing |
| `ResolverTheorems.ResolveDeterministic` | core/registry/resolver.go:64-112 | permuting the input changes neither the order nor the cycle report |
| `ResolverTheorems.RemoveUnrequired` | core/registry/resolver.go:64-112 | dropping a route nothing requires gives the old order, or the old cycle report, without it |
| `ResolverTheorems.RemoveRequired` | core/registry/resolver.go:40-47 | dropping a route another one requires gives a fault |
| `ResolverTheorems.ChainsRespectTrustAndOrder` | core/registry/trust.go:13-24 | in a resolved set everything a route reaches is at least as trusted and comes before it |
| `IndexTheorems.AddKeepsIndexes` | core/registry/bolt_unified.go:786-824 | filing a route under a key whose holder required nothing keeps both indexes equal to a scan |
| `IndexTheorems.RemoveKeepsIndexes` | core/registry/bolt_unified.go:826-866 | clearing a stored route's entries leaves both indexes equal to a scan of the others, dangling and repeated entries included |
| `IndexTheorems.SameNeedsKeepsIndexes` | core/registry/bolt_unified.go:868-892 | rewriting routes without touching their requirements leaves the indexes exact |
| `RegistryTheorems.RegisterExact` | core/registry/bolt_unified.go:169-249 | accepted if and only if valid, the key free, and no stored provider has a higher level than the route; then that route is stored and no other is touched; whatever types the buckets hold |
| `RegistryTheorems.RegisterKeepsIndexes` | core/registry/bolt_unified.go:169-249 | an accepted registration keeps the indexes exact |
| `RegistryTheorems.RegisterTxKeepsIndexes` | core/registry/bolt_unified.go:217-249 | so does the transaction alone, whatever has been written since the route was checked |
| `RegistryTheorems.RemoveKeepsConsistency` | core/registry/bolt_unified.go:380-420 | a removal keeps the indexes exact |
| `RegistryTheorems.RemoveTxKeepsIndexes` | core/registry/bolt_unified.go:394-417 | so does the transaction alone, whatever dependents it was given |
| `RegistryTheorems.RemoveExact` | core/registry/bolt_unified.go:380-420 | takes out that one route, sets exactly the routes requiring it to the state "orphaned", leaves every other as it was |
| `RegistryTheorems.RemoveTxExact` | core/registry/bolt_unified.go:394-417 | the transaction takes out that one route, marks exactly the dependents it was given and leaves every other as it was |
| `RegistryTheorems.RewriteKeepsIndexes` | core/registry/bolt_unified.go:340-483 | rewriting a stored route under its own reference with its own requirements, as payload updates, enabling and disabling do, keeps the indexes exact |
| `RegistryTheorems.HotSwapExact` | core/registry/bolt_unified.go:634-733 | every committed swap, safe or not, clears the old key, stores the new route with the former one's policy in the former one's bucket, and touches no other |
| `RegistryTheorems.HotSwapKeepsIndexesIff` | core/registry/bolt_unified.go:634-733 | an accepted swap keeps the database consistent if and only if the type is unchanged and the new key is the old one, free, or held by a route without requirements |
| `RegistryTheorems.HotSwapTxKeepsIndexesIff` | core/registry/bolt_unified.go:662-733 | the same for the transaction alone, whatever has been written since the route was checked |
| `RegistryTheorems.WrongTypeBreaksBuckets` | core/registry/bolt_unified.go:719-729 | a swap to another type always leaves a route in the wrong bucket |
| `RegistryTheorems.CollisionBreaksForward` | core/registry/bolt_unified.go:709-732 | a swap onto a route that has requirements always leaves stale forward entries |
| `RegistryTheorems.RunsKeepIndexes` | core/registry/bolt_unified.go:786-866 | from the empty database, every run of registrations, removals, updates, enablements and safe swaps leaves forward index = bag of stored routes requiring the key, reverse index = requirements |
| `RegistryTheorems.DependentsAreAScan` | core/registry/bolt_unified.go:486-523 | dependents of a key: the stored routes requiring it, each as often as it requires it |
| `RegistryTheorems.DependenciesAreTheRequirements` | core/registry/bolt_unified.go:526-563 | dependencies of a stored route: the stored routes among its requirements, in order |
| `RegistryTheorems.PresentConcat` | core/registry/bolt_unified.go:505-520 | references are followed one by one, in order, and one that is not stored yields nothing |
| `RegistryTheorems.ListExact` | core/registry/bolt_unified.go:290-337 | a listing holds exactly the stored routes with the type, domain, enablement, level and state asked for, each once |
| `RegistryTheorems.NoDependentsIff` | core/registry/bolt_unified.go:486-523 | the index shows no dependent exactly when no listed route requires the key |
| `RegistryTheorems.RemovalDeletesFromOrder` | core/registry/bolt_unified.go:380-420 | removing a route without dependents from a resolving registry: it still resolves, to the old order with that route deleted |
| `RegistryTheorems.RemovalOfRequiredFails` | core/registry/bolt_unified.go:380-420 | removing a route another stored route requires leaves a registry that does not resolve |
| `RegistryFields.PatternsExact` | core/registry/route.go:117-118 | domains and names are accepted exactly as the two regular expressions say |
| `RegistryFields.ValidatesIff` | core/registry/route.go:179-232 | a route is valid if and only if its type and those of its references are among the six, domain and name match, version and names are not empty, the engine is one of seven and the risk score between 0 and 100 |
| `RegistryFields.AdmitExact` | core/registry/bolt_unified.go:169-184 | an invalid route is refused as such, otherwise the first requirement stored at a higher level is named, otherwise nothing is |
| `RegistryFields.RegisterErrors` | core/registry/bolt_unified.go:169-249 | after these checks a taken key is refused as already existing, and nothing else is refused |
| `RegistryFields.HotSwapErrors` | core/registry/bolt_unified.go:634-670 | after these checks a swap of a route that is not stored is refused as not found, and nothing else is |
| `RegistryFields.RegisteredFields` | core/registry/bolt_unified.go:186-208 | field by field, what a registered route is stored as: as declared, with state, trust state, policy revision, levels and grants filled in where left open |
| `RegistryFields.SwappedFields` | core/registry/bolt_unified.go:681-706 | field by field, what a swapped-in route is stored as: declaration from the new one, enablement, effective trust, risk, policy from the former; declared trust and grants where left open; both states "pending_review" if and only if it declares more capabilities, else state as given and trust state as before |
| `RegistryFields.SetEnabledExact` | core/registry/bolt_unified.go:441-483 | succeeds if and only if the route is stored; then enablement and state are those asked for, its other fields and every other route as before |
| `RegistryFields.UpdateExact` | core/registry/bolt_unified.go:340-377 | succeeds if and only if the route is stored; then the payload is the one given, its other fields and every other route as before |
| `RegistryFields.ListOrdered` | core/registry/bolt_unified.go:290-337 | a listing goes through the types in their fixed order, and within a type upwards in byte order of the keys |
| `TrustTheorems.RegisterKeepsTrustIff` | core/registry/bolt_unified.go:169-249 | while every stored requirement is respected, an accepted registration keeps it so if and only if every stored route requiring the new reference may trust the new level |
| `TrustTheorems.HotSwapKeepsTrustIff` | core/registry/bolt_unified.go:634-733 | the same for an accepted swap and the place in which it puts the new route, the replaced routes set aside |
| `TrustTheorems.RegisterTxKeepsTrustIff` | core/registry/bolt_unified.go:217-249 | a committed registration keeps trust if and only if the routes that require it may trust it and it may trust those it requires, as stored at the commit |
| `TrustTheorems.HotSwapTxKeepsTrustIff` | core/registry/bolt_unified.go:662-733 | the same for a committed swap and the place it fills, the replaced routes set aside |
| `TrustTheorems.RemoveTxKeepsTrust` | core/registry/bolt_unified.go:380-420 | a removal keeps every stored requirement respected |
| `TrustTheorems.RewriteKeepsTrust` | core/registry/bolt_unified.go:340-483 | so does rewriting a route without touching its level and requirements |
| `TrustTheorems.RunsKeepTrustIff` | core/registry/trust.go:13-24 | over every run from the empty database, unsafe swaps included, trust holds after every write if and only if each accepted write stores a route its dependents may trust |
| `TrustTheorems.StoredChainsRespectTrust` | core/registry/trust.go:13-24 | while it holds, whatever a stored route reaches through stored routes is at least as trusted, whether the registry resolves or not |
| `Interleavings.NextKeepsIndexesIff` | core/registry/bolt_unified.go:169-249 | whatever was checked or read before, a step keeps the indexes exact if and only if it commits no unsafe swap |
| `Interleavings.InterleavingsKeepIndexesIff` | core/registry/bolt_unified.go:169-733 | over every interleaving of checks, reads and transactions, the indexes are exact after every step if and only if no unsafe swap is committed |
| `Interleavings.InterleavingsKeepTrustIff` | core/registry/bolt_unified.go:169-733 | over every interleaving, trust holds after every step if and only if each committed write finds dependents that may trust it and requirements it may trust at its commit |
| `Interleavings.AloneIsAtomic` | core/registry/bolt_unified.go:169-249 | a call whose steps nothing interrupts leaves the state, and gives the answer, of the single write the other theorems speak of |
| `Interleavings.StaleCheckBreaksTrust` | core/registry/bolt_unified.go:180-208 | a run of two accepted registrations of which the first would be refused if it were checked at its commit, and which breaks trust |
| `Interleavings.RemovalMarksAllIff` | core/registry/bolt_unified.go:380-420 | a committed removal leaves all routes that require the removed one orphaned if and only if those not orphaned before had been read |
| `Interleavings.RemovalMissesDependent` | core/registry/bolt_unified.go:380-389 | a run in which a route registered between the reading and the commit is left unmarked |
| `RegistryGaps.TwoRegistrationsBreakTrust` | core/registry/bolt_unified.go:176-189 | two accepted registrations after which an L1 plugin requires an L3 plugin |
| `RegistryGaps.TypeChangeBreaksIndexes` | core/registry/bolt_unified.go:719-729 | a registration and an accepted swap to another type that end inconsistent |
| `RegistryGaps.CollisionBreaksIndexes` | core/registry/bolt_unified.go:709-732 | two registrations and an accepted swap onto the second one that end inconsistent |
| `BoltRegistry.UpdateDependencyIndexes` | core/registry/bolt_unified.go:786-824 | the loop over requirements files the route once per occurrence and touches no route |
| `BoltRegistry.RemoveDependencyIndexes` | core/registry/bolt_unified.go:826-866 | the nested loops take the route out of every entry its reverse entry names, dropping entries that become empty |
| `BoltRegistry.CursorKeys` | core/registry/bolt_unified.go:321-337 | a bucket is visited in ascending key order |
| `BoltRegistry.ListBucketRoutes` | core/registry/bolt_unified.go:321-337 | the matching routes of one bucket in that order |
| `BoltRegistry.BoltUnifiedRegistry.constructor` | core/registry/bolt_unified.go:48-92 | starts open, with empty buckets and indexes |
| `BoltRegistry.BoltUnifiedRegistry.Get` | core/registry/bolt_unified.go:252-287 | the stored route, or which of the two errors |
| `BoltRegistry.BoltUnifiedRegistry.CheckTrustBoundary` | core/registry/bolt_unified.go:624-631 | passes exactly if the stored provider's level is not above the consumer's; a provider that cannot be read counts as L1 |
| `BoltRegistry.BoltUnifiedRegistry.Check` | core/registry/bolt_unified.go:169-199 | the first reason to refuse a route before the write lock is taken, in requirement order |
| `BoltRegistry.BoltUnifiedRegistry.Register` | core/registry/bolt_unified.go:169-249 | either commits the transaction the theorems speak of, or reports the error and leaves the database as it was |
| `BoltRegistry.BoltUnifiedRegistry.HotSwap` | core/registry/bolt_unified.go:634-733 | either commits the swap the theorems speak of, or reports the error and leaves the database as it was |
| `BoltRegistry.BoltUnifiedRegistry.Update` | core/registry/bolt_unified.go:340-377 | replaces one payload or leaves the database as it was |
| `BoltRegistry.BoltUnifiedRegistry.SetEnabled` | core/registry/bolt_unified.go:441-483 | changes one route's enablement or leaves the database as it was |
| `BoltRegistry.BoltUnifiedRegistry.Enable` | core/registry/bolt_unified.go:423-425 | sets the route to enabled and "active", or leaves the database as it was |
| `BoltRegistry.BoltUnifiedRegistry.Remove` | core/registry/bolt_unified.go:380-420 | reports all three parts of the impact before removal, then commits the removal the theorems speak of or leaves the database as it was |
| `BoltRegistry.BoltUnifiedRegistry.Disable` | core/registry/bolt_unified.go:428-438 | reports all three parts of the impact of the state before, then sets the route to disabled and "inactive" |
| `BoltRegistry.BoltUnifiedRegistry.Fetch` | core/registry/bolt_unified.go:505-520 | the routes an index entry refers to, in order, dangling references skipped |
| `BoltRegistry.BoltUnifiedRegistry.Dependents` | core/registry/bolt_unified.go:486-523 | the routes filed under the key in the forward index |
| `BoltRegistry.BoltUnifiedRegistry.Dependencies` | core/registry/bolt_unified.go:526-563 | the routes filed under the key in the reverse index |
| `BoltRegistry.BoltUnifiedRegistry.ComputeTransitiveDependents` | core/registry/bolt_unified.go:894-913 | terminates on every registry, cyclic or not; with a visited set shared by all branches it lists once, and marks, exactly what reaches the start along unvisited routes |
| `BoltRegistry.BoltUnifiedRegistry.Impact` | core/registry/bolt_unified.go:736-768 | direct part = dependents in index order; transitive part = each route once for every dependent it reaches without passing the route; orphaned = dependents left without another stored dependency |
| `BoltRegistry.BoltUnifiedRegistry.List` | core/registry/bolt_unified.go:290-337 | bucket after bucket, or one bucket when a type is given |
| `BoltRegistry.BoltUnifiedRegistry.ResolutionOrder` | core/registry/bolt_unified.go:602-608 | resolves the whole unfiltered listing |
| `BoltRegistry.BoltUnifiedRegistry.PluginStartupOrder` | core/registry/bolt_unified.go:143-156 | the plugin names of the resolution order, in its order |
| `BoltRegistry.BoltUnifiedRegistry.Close` | core/registry/bolt_unified.go:771-782 | closes without touching the stored data |
| `BoltRegistry.SomeOther` | core/registry/bolt_unified.go:752-762 | whether a dependent has another stored dependency |
| `Reachability.ExploreStep` | core/registry/bolt_unified.go:901-910 | marking one dependent and exploring from it extends the exploration of its parent |
| `Reachability.WhitePath` | core/registry/bolt_unified.go:894-913 | a finished exploration added exactly what reaches the start along routes unvisited at its beginning |
| `Reachability.AffectedSplit` | core/registry/bolt_unified.go:736-768 | whatever reaches a route is a dependent of it or reaches one without passing the route |
| `Impact.DependentsByKey` | core/registry/impact.go:12-18 | maps each key to the routes requiring it |
| `Impact.HasOtherProviders` | core/registry/impact.go:39-58 | the nested loops find whether another enabled route provides one of the other requirements |
| `Impact.VisitDependents` | core/registry/impact.go:34-75 | one pass lists each new dependent once, as direct or transitive, judges it and queues it; the nodes processed, the current one and the queue stay the order of visiting |
| `Impact.ComputeImpact` | core/registry/impact.go:5-80 | no route twice; direct = distance-one dependents; all listed = exactly the routes with a requires-path to the start; orphaned are among the listed, each judged against the first route in visiting order that it requires |
| `ImpactTheorems.IndexGraphIsStoredGraph` | core/registry/bolt_unified.go:786-866 | in a consistent database the forward index is the requires-graph of the stored routes |
| `ImpactTheorems.ImpactIsReachability` | core/registry/bolt_unified.go:736-768 | apart from the route itself, direct and transitive parts together are exactly the stored routes that reach it |
| `ImpactTheorems.AnalysesAgree` | core/registry/impact.go:5-80 | the search over the index and the search over the list report the same routes and the same direct part |
| `ImpactTheorems.OrphanedExact` | core/registry/bolt_unified.go:748-765 | orphaned: the dependents all of whose stored requirements are the route itself |
| `ImpactTheorems.ListedOrphansExact` | core/registry/impact.go:39-65 | the search over the list orphans an affected route, direct or not, unless some enabled listed route, other than the one it was met from, provides at least one of its other requirements |
| `ImpactTheorems.AffectedIsMet` | core/registry/impact.go:34-75 | every affected route is met from the first visited route that it requires, a direct dependent from the start |
| `ImpactTheorems.VerdictsAgreeIff` | core/registry/impact.go:39-65 | the verdict of each analysis on every stored route that reaches the start, and when they agree: on a direct dependent if and only if it has another stored requirement exactly when an enabled stored route provides one, on an indirect one if and only if the search over the list finds a provider |
| `ImpactTheorems.EachReadingIff` | core/registry/impact.go:39-58 | the search over the list orphans an affected route just when not each of its requirements, but for the one it was met from, has a provider, if and only if there are others and all of them or none have one |
| `ImpactGaps.OrphanedByListOnly` | core/registry/impact.go:39-65 | three registrations after which only the search over the list orphans a dependent |
| `ImpactGaps.OrphanedByIndexOnly` | core/registry/bolt_unified.go:748-765 | three registrations after which only the search over the index orphans a dependent |
| `ImpactGaps.OneProviderIsEnough` | core/registry/impact.go:39-58 | three registrations after which a dependent with one provided and one unprovided other requirement is not orphaned |
| `ImpactGaps.NoOtherRequirementOrphans` | core/registry/impact.go:39-58 | three registrations after which a dependent without other requirements is orphaned |
| `ImpactGaps.IndirectOrphanedByListOnly` | core/registry/impact.go:34-75 | three registrations after which only the search over the list orphans an indirect dependent |
| `ImpactTheorems.PluginNamesKeepOrder` | core/registry/bolt_unified.go:148-155 | dropping the other types keeps plugins in order |
| `ImpactTheorems.PluginChains` | core/registry/bolt_unified.go:143-156 | if plugin a requires its way to plugin b through routes of any type, b is listed before a and nothing on the way is less trusted than a |
| `LifecycleManager.AddPlugin` | core/lifecycle/implementation.go:530-567 | records Requires and loaded After of one plugin on both sides, or names a requirement that is not loaded |
| `LifecycleManager.BuildGraph` | core/lifecycle/implementation.go:527-568 | the same for all plugins, in any iteration order |
| `LifecycleManager.FallbackOrder` | core/lifecycle/implementation.go:527-607 | the sort of the plugin graph, a requirement that is not loaded, or exactly the plugins left out |
| `LifecycleManager.ResolvedOrder` | core/lifecycle/implementation.go:503-524 | the resolver's order restricted to loaded plugins, followed by the loaded plugins it does not mention, once each, in any order |
| `LifecycleManager.ManagerImpl.constructor` | core/lifecycle/manager.go:224-233 | starts with no plugins, no order, no calls |
| `LifecycleManager.ManagerImpl.LoadAll` | core/lifecycle/implementation.go:37-83 | reads entries up to the first failing query, as `LoadAllExact` describes |
| `LifecycleLoading.LoadAllExact` | core/lifecycle/implementation.go:37-83 | a new name is in the table if and only if, before the first failing lookup, an entry of that name is enabled and loads or has an in-process engine; the first such entry gives manifest, presence, state and reason; other entries of the table stay |
| `LifecycleManager.ManagerImpl.BuildStartupOrder` | core/lifecycle/implementation.go:500-608 | which order or error is possible with and without a resolver |
| `LifecycleManager.ManagerImpl.HasFailedDependencies` | core/lifecycle/implementation.go:488-498 | whether a requirement is on the failed list |
| `LifecycleManager.ManagerImpl.InitPlugin` | core/lifecycle/implementation.go:98-143 | one round of phase 1: new state, failed list, and whether `Init` was called |
| `LifecycleManager.ManagerImpl.StartPlugin` | core/lifecycle/implementation.go:146-168 | one round of phase 2: new state, failed list, and whether `Start` was called |
| `LifecycleManager.ManagerImpl.StartNow` | core/lifecycle/implementation.go:471-486 | Init, then Start only if Init succeeded; which of them failed |
| `LifecycleManager.ManagerImpl.Start` | core/lifecycle/implementation.go:85-198 | without an order nothing changes; otherwise table, call log and reported failures are those of the two phases over that order |
| `LifecycleManager.ManagerImpl.StopPlugin` | core/lifecycle/implementation.go:219-240 | one round of the shutdown, and whether it ran into a nil plugin object |
| `LifecycleManager.ManagerImpl.Stop` | core/lifecycle/implementation.go:200-246 | table, call log and errors are those of stopping the reversed order |
| `LifecycleManager.ManagerImpl.Enable` | core/lifecycle/implementation.go:248-318 | outcome and table as `EnableOutcome` describes, `Init` called and then `Start` if that succeeds; the order is untouched |
| `LifecycleManager.ManagerImpl.Disable` | core/lifecycle/implementation.go:320-382 | outcome and table as `DisableOutcome` describes, `Stop` called if it gets that far; the order is untouched |
| `LifecycleManager.ManagerImpl.Retry` | core/lifecycle/implementation.go:384-429 | outcome and table as `RetryOutcome` describes, `Init` called and then `Start` if that succeeds; the order is untouched |
| `LifecycleManager.ManagerImpl.InactiveRequirement` | core/lifecycle/implementation.go:266-280 | the first requirement that is not active |
| `LifecycleManager.ManagerImpl.Requires` | core/lifecycle/implementation.go:348-357 | whether one plugin requires another by name |
| `LifecycleManager.ManagerImpl.Report` | core/lifecycle/implementation.go:170-195 | the failures that make Start fail |
| `LifecycleManager.BlockingExact` | core/lifecycle/implementation.go:170-195 | Start reports exactly the failed plugins of the order whose engine is "", "native" or "l1" |
| `LifecycleManager.BlockingConcat` | core/lifecycle/implementation.go:170-195 | the report goes through the order name by name |
| `LifecycleManager.BlockingAmongFailed` | core/lifecycle/implementation.go:170 | skipping the report when no failure was collected loses none |
| `LifecycleManager.StopPanics` | core/lifecycle/implementation.go:200-246 | after a nil plugin object nothing further happens |
| `LifecycleTheorems.InitAllDone` | core/lifecycle/implementation.go:98-143 | phase 1 as a whole, over any order, repetitions and unordered requirements included: the final entry of every plugin with the reason of its failure, exact failed list, exact set of Init calls |
| `LifecycleTheorems.StartAllDone` | core/lifecycle/implementation.go:145-168 | phase 2 as a whole, over any order: only plugins made ready change, to active or failed by their own answer |
| `LifecycleTheorems.SoundUnfold` | core/lifecycle/implementation.go:488-498 | everything a plugin leads to is fit exactly when its loaded requirements that are visited earlier are sound |
| `LifecycleTheorems.StartExact` | core/lifecycle/implementation.go:85-198 | over any order and from any settled table: the entry each plugin ends with, reason of failure included, and the `Init` and `Start` calls made, from the table before and the answers alone |
| `LifecycleOutcomes.StartCallsFollowOrder` | core/lifecycle/implementation.go:98-168 | `Init` and `Start` are each called in the order of the visits |
| `LifecycleOutcomes.ParseIff` | core/manifest.go:126-137 | a dependency names a plugin if and only if it is that name, or that name, `@` and a nonempty constraint |
| `LifecycleOutcomes.ParseNone` | core/manifest.go:126-137 | it is malformed if and only if nothing follows the first `@` |
| `LifecycleOutcomes.NeedsExact` | core/lifecycle/implementation.go:488-498 | a plugin needs what it declares, and is blocked besides by the empty name if a declaration is malformed |
| `LifecycleOutcomes.EnableOutcome` | core/lifecycle/implementation.go:248-318 | the answer of Enable and the table it leaves in every case, the first inactive requirement and the failing callback named |
| `LifecycleOutcomes.RetryOutcome` | core/lifecycle/implementation.go:384-429 | the same for Retry |
| `LifecycleOutcomes.DisableOutcome` | core/lifecycle/implementation.go:320-382 | the same for Disable, the first active dependent of the order named |
| `LifecycleOutcomes.FallbackExact` | core/lifecycle/implementation.go:527-607 | without a resolver an order exists if and only if all requirements are loaded and Requires and After make no cycle; it then puts requirements and what is asked to be followed first |
| `LifecycleTheorems.GapExact` | core/lifecycle/implementation.go:85-198 | a requirement of a plugin that comes up runs afterwards exactly where there is no gap |
| `LifecycleTheorems.StartKeepsClosedIff` | core/lifecycle/implementation.go:145-168 | over any order of the loaded plugins: from a closed state, active plugins have active requirements after Start if and only if no plugin that comes up requires one that is not loaded, whose `Start()` fails, or that is visited later and neither runs nor gets through phase 1 |
| `LifecycleOrders.BuiltOrderCovers` | core/lifecycle/implementation.go:500-608 | whatever a resolver answers, an order that Start uses visits every loaded plugin and nothing else |
| `LifecycleOrders.FallbackRespects` | core/lifecycle/implementation.go:527-607 | a fallback order holds every plugin once, after its requirements, and these are loaded |
| `LifecycleOrders.RespectsNoGap` | core/lifecycle/implementation.go:145-168 | over an order that puts loaded requirements first, Start opens no gap unless a `Start()` fails |
| `LifecycleOrders.SoundIffAllWell` | core/lifecycle/implementation.go:488-498 | over such an order, at the first start, a plugin is sound exactly when it and all its transitive requirements were loaded and initialise |
| `LifecycleOrders.FirstStart` | core/lifecycle/implementation.go:98-168 | a first Start over such an order makes a plugin active if and only if its `Start()` succeeds and it and all its transitive requirements were loaded and initialised, else failed; `Init` is called exactly on loaded plugins whose transitive requirements were |
| `LifecycleShutdown.StopAllDone` | core/lifecycle/implementation.go:200-246 | over any list of names, a shutdown calls `Stop` exactly on its active and failed plugins and leaves the others alone; the state and reason each ends with, and which are reported |
| `LifecycleShutdown.StopVisits` | core/lifecycle/implementation.go:200-246 | the calls of a shutdown are, in order, its visits to active and failed plugins that no earlier visit has stopped, and its errors those of them that are answered badly |
| `LifecycleShutdown.StopPanicsIff` | core/lifecycle/implementation.go:219-235 | over any order, Stop reaches a nil plugin object if and only if the order holds an entry that failed to load |
| `LifecycleShutdown.StopEndsAll` | core/lifecycle/implementation.go:200-246 | over any order that holds every started plugin, nothing is active on return, and every plugin that was active was asked to stop |
| `LifecycleShutdown.ActiveWhileStopping` | core/lifecycle/implementation.go:219-240 | after each step the plugins still active are those that were active and have not been visited |
| `LifecycleShutdown.StopStaysClosedIff` | core/lifecycle/implementation.go:219-240 | over any order and whatever the answers: active plugins have active requirements after every single step if and only if the shutdown reaches every active plugin before the active plugins it requires |
| `LifecycleShutdown.CallsFollowVisits` | core/lifecycle/implementation.go:212-240 | `Stop` calls come in the order of the visits |
| `LifecycleShutdown.DependentsStopFirst` | core/lifecycle/implementation.go:212-240 | when the reversed order meets every plugin before what it requires, no plugin is first stopped after one it requires, directly or through others |
| `LifecycleRuns.StartKeepsBase` | core/lifecycle/implementation.go:85-198 | Start, with any resolver answer, keeps: settled states, every started plugin in the order |
| `LifecycleRuns.StartKeepsClosed` | core/lifecycle/implementation.go:85-198 | with any resolver answer, Start keeps active plugins' requirements active if and only if it opens no gap |
| `LifecycleRuns.StopKeepsInvariants` | core/lifecycle/implementation.go:200-246 | Stop goes down if and only if the order holds an entry without a plugin object, and otherwise keeps both, whatever the answers |
| `LifecycleRuns.LoadKeepsInvariants` | core/lifecycle/implementation.go:37-83 | LoadAll keeps both |
| `LifecycleRuns.EnableKeepsInvariants` | core/lifecycle/implementation.go:248-318 | Enable keeps both, whatever the answers |
| `LifecycleRuns.RetryKeepsInvariants` | core/lifecycle/implementation.go:384-429 | Retry goes down if and only if the entry has no plugin object and active requirements, and otherwise keeps both, whatever the answers |
| `LifecycleRuns.DisableKeepsInvariants` | core/lifecycle/implementation.go:320-382 | Disable keeps both; it may look at the order only because every active plugin is in it |
| `LifecycleRuns.EnableRetryExact` | core/lifecycle/implementation.go:248-429 | Enable succeeds exactly on stopped, Retry exactly on failed plugins with a plugin object, whose requirements are all active and whose callbacks succeed; Retry calls a nil object exactly on entries without one whose requirements are active; no other plugin changes; the state otherwise |
| `LifecycleRuns.DisableExact` | core/lifecycle/implementation.go:320-382 | Disable succeeds exactly on an active plugin that no other active plugin of the whole table requires, if it stops; no other plugin changes |
| `LifecycleRuns.RunsKeepBase` | core/lifecycle/implementation.go:37-429 | over every run from an empty manager, whatever a resolver and the callbacks answer, as long as no nil plugin object has been called, states are settled between operations and every started plugin is in the order |
| `LifecycleRuns.RunsStayClosedIff` | core/lifecycle/implementation.go:37-429 | over every such run, active plugins have active requirements after every operation up to the call of a nil plugin object if and only if none of its Starts opens a gap |
| `LifecycleRuns.RunsGoDownIff` | core/lifecycle/implementation.go:219-429 | a run calls a nil plugin object exactly at a Stop when the last Start with an order found an entry that had failed to load, and at a Retry of such an entry whose requirements are active |
| `LifecycleRuns.OrderlyRunsStayClosed` | core/lifecycle/implementation.go:37-429 | so over every run without failing `Start()` whose orders put loaded requirements first, as the manager's own sort does |
| `LifecycleRuns.OrderlyRunsStopInOrder` | core/lifecycle/implementation.go:200-246 | over every run whose Starts put loaded requirements first, whatever fails, each shutdown reaches active dependents before the active plugins they require |
| `LifecycleRuns.SuppliedRunsStopInOrder` | core/lifecycle/implementation.go:200-246 | if those Starts found all requirements loaded, as the manager's own sort checks, it reaches every plugin of the order before whatever it requires |
| `LifecycleRuns.FirstInactiveNone` | core/lifecycle/implementation.go:266-280 | the scan finds nothing exactly when all parsed requirements are active |
| `LifecycleRuns.FirstDependentNone` | core/lifecycle/implementation.go:338-358 | the scan finds nothing exactly when no other active plugin of the order requires the name |
| `LifecycleGaps.StartFailureLeavesGap` | core/lifecycle/implementation.go:145-168 | two plugins where Start leaves one active above one whose `Start()` failed |
| `LifecycleGaps.UnloadedRequirementLeavesGap` | core/lifecycle/implementation.go:502-525 | one plugin that a resolver-ordered Start activates although its requirement is not loaded |
| `LifecycleGaps.LateFailureLeavesGap` | core/lifecycle/implementation.go:502-525 | two loaded plugins, all `Start()` succeeding, where a resolver-ordered Start activates one whose requirement fails its `Init` afterwards |
| `LifecycleGaps.StopOutOfOrder` | core/lifecycle/implementation.go:212-240 | two plugins started in such an order, of which the shutdown stops the required one first |
| `LifecycleGaps.StopReachesNilPlugin` | core/lifecycle/implementation.go:219-228 | a plugin fails to load, the manager is started through a resolver and stopped: a nil plugin object is called |
| `StartupAgreement.GraphsAgree` | core/registry/compat.go:76-83 | for plugins stored as default-domain routes without version constraints the stored requires-graph is the plugin graph under one key prefix |
| `StartupAgreement.LoadedIffPresent` | core/lifecycle/implementation.go:542-548 | a requirement is missing for one sort exactly when it is for the other |
| `StartupAgreement.OrdersAgree` | core/lifecycle/implementation.go:527-607 | for plugins stored as declared, constraints included: `PluginStartupOrder` succeeds if and only if the fallback sort does, no requirement carries a constraint and every one is trusted enough; the two then give the same list |
| `StartupAgreement.OddNameNeverResolves` | core/registry/compat.go:76-81 | a stored requirement whose name is no valid name, such as one with a version constraint, keeps the whole registry from resolving |
| `RegistryStartup.DistinctIffOneEach` | core/registry/bolt_unified.go:143-156 | a name is repeated among the loaded names of the resolved plugins exactly when two of these plugins, of different domains, bear it |
| `RegistryStartup.PlacesKept` | core/registry/bolt_unified.go:143-156 | where no name is shared, the order of the loaded names is the order of their routes' keys |
| `RegistryStartup.OrderFromRegistry` | core/lifecycle/implementation.go:502-525 | when every loaded plugin is stored, Start uses the loaded names of the resolved routes as they come, repetitions included |
| `RegistryStartup.ResolvedOrderRespectsIff` | core/lifecycle/implementation.go:502-525 | when the registry resolves and every loaded plugin was read from a stored one, of whatever domain and with requirements of whatever types, the order built through the resolver puts requirements first if and only if no two stored plugins bear one loaded name and every borrowed name is in place in the registry's order of all routes |
| `RegistryStartup.ReachedInPlace` | core/registry/compat.go:40-42 | a borrowed name is in place whenever the borrower requires its way to the plugin of that name |
| `RegistryStartup.ResolvedOrderRespects` | core/lifecycle/implementation.go:502-525 | so the order puts requirements first when there are no such homonyms and borrowers reach what they borrow from |
| `RegistryStartup.ReadEntriesExact` | core/registry/compat.go:272-302 | what LoadAll works through is exactly an entry for each stored plugin: its name, engine and the names of its requirements, with the enablement looked up in the default domain |
| `RegistryStartup.LoadsToTheEndIff` | core/lifecycle/implementation.go:46-50 | every listed name can be looked up if and only if every stored plugin has a default-domain twin |
| `RegistryStartup.DisabledIsSkipped` | core/registry/bolt_unified.go:428-483 | after a plugin has been disabled its entry says so, and loading does not bring it into a table without it |
| `RegistryStartup.LoadedIsBacked` | core/lifecycle/implementation.go:37-83 | loading stored plugins, whichever are enabled and load, leaves a table in which each plugin was read from a stored one |
| `RegistryStartup.ListingIsBacked` | core/lifecycle/implementation.go:37-83 | in particular the table that an empty manager builds from the listing |
| `RegistryStartup.RunsStayBacked` | core/lifecycle/implementation.go:37-429 | so over every run of a manager from empty that loads from one registry |
| `RegistryStartup.RegistryRunsStopInOrder` | core/lifecycle/implementation.go:37-525 | over every such run whose orders come from that registry, if no two stored plugins bear one name and borrowers reach what they borrow from, each shutdown reaches active dependents first |
| `StartupGaps.ConstraintSplitsSorts` | core/registry/compat.go:76-81 | two plugins registered as declared, one with a version constraint: the manager's own sort orders them and the registry does not resolve |
| `StartupGaps.SharedNameLeavesOrder` | core/registry/compat.go:40-42 | three registrations, no name shared by plugins, after which the registry resolves and no order that the manager builds from it puts all requirements first |
| `StartupGaps.HomonymStopsOutOfOrder` | core/registry/bolt_unified.go:150-154 | three plugins, one in another domain, and a manager that loads from and starts through their registry: the shutdown stops a plugin under its running dependent |
| `SqlSplitter.SplitSQLStatements` | plugins/database/migration.go:226-265 | the byte loop with its look-ahead computes `Split`, the function the lemmas below are about |
| `SqlSplitter.ScanIsToggle` | plugins/database/migration.go:234-244 | doubled quotes need no look-ahead: cutting where the number of quotes so far is even gives the same statements |
| `SqlSplitter.SplitUndoesJoin` | plugins/database/migration.go:226-265 | joining nonempty, trimmed statements without a semicolon outside quotes, all but the last quote-balanced, and splitting gives them back |
| `SqlSplitter.SplitMakesStatements` | plugins/database/migration.go:226-265 | on any text the outputs are such statements |
| `SqlSplitter.SplitStable` | plugins/database/migration.go:226-265 | splitting the joined outputs gives them back, and every output splits into itself alone |
| `SqlSplitter.SplitKeepsText` | plugins/database/migration.go:226-265 | apart from white space and the semicolons cut at, nothing is lost, added or reordered |
| `SqlSplitter.SplitAtSemicolon` | plugins/database/migration.go:226-265 | a semicolon that an even number of single quotes precedes separates: what is before it and what is after it are split on their own |
| `SqlSplitter.SplitNowhere` | plugins/database/migration.go:226-265 | text in which an odd number of single quotes precedes every semicolon is one trimmed statement, or none if blank |
| `SqlSplitter.TrimExact` | plugins/database/migration.go:226-265 | trimming takes white space off both ends and nothing else |
| `SqlSplitter.SpaceCodes` | plugins/database/migration.go:226-265 | white space by its code points |
| `RateLimiter.Limiter.constructor` | plugins/api/ratelimit.go:28-34 | starts with no entries |
| `RateLimiter.Limiter.Allow` | plugins/api/ratelimit.go:38-69 | grants while the key's counter is within the limit, reports what remains and when the window ends, and touches no other key |
| `RateLimiter.GrantedIff` | plugins/api/ratelimit.go:38-69 | under a non-decreasing clock and a positive window a call is granted if and only if fewer than `limit` earlier calls of its key fell in the same aligned window |
| `RateLimiter.CountedExact` | plugins/api/ratelimit.go:38-69 | the counter is the number of calls of the key in the aligned window, and the time reported is the end of that window |
| `RateLimiter.NoWindowCountsAnew` | plugins/api/ratelimit.go:38-69 | with a window that is not positive every call opens a new one |
| `RateLimiter.GrantsPerWindow` | plugins/api/ratelimit.go:38-69 | each aligned window grants the smaller of its calls and the limit |
| `RateLimiter.AtMostTwiceTheLimit` | plugins/api/ratelimit.go:38-69 | every half-open interval one window long holds at most 2 * limit grants per key |
| `RateLimiter.TwiceTheLimitHappens` | plugins/api/ratelimit.go:38-69 | for every limit and every window longer than one instant, bursts on both sides of a window boundary reach the bound |
| `RateLimiter.OneInstantNeverMore` | plugins/api/ratelimit.go:38-69 | with a window of one instant no interval of its length holds more than the limit |
| `Topics.JoinUndoesSplit` | core/events/bus.go:342-343 | splitting at dots loses nothing and leaves no dot in a segment |
| `Topics.SplitInjective` | core/events/bus.go:342-343 | different topics have different segment lists |
| `Topics.MatchIff` | core/events/bus.go:349-392 | matching holds if and only if the topic splits into consecutive blocks, one per pattern segment: literal one equal, `*` exactly one, `**` zero or more |
| `Topics.MatchTopicIff` | core/events/bus.go:331-346 | the shortcuts for the empty pattern and `**` follow the same rule, and every topic matches itself |
| `EventBus.SortEntries` | core/events/bus.go:288-296 | non-decreasing priority and the same entries as often |
| `EventBus.Bus.constructor` | core/events/bus.go:78-84 | starts without subscriptions |
| `EventBus.Bus.SubscribeFilter` | core/events/bus.go:92-118 | adds one entry under a fresh id to that topic only, keeping every list sorted and all ids distinct; a nil handler changes nothing |
| `EventBus.Bus.Unsubscribe` | core/events/bus.go:223-256 | takes exactly the entries with that id out, wherever they are; an unknown id changes nothing |
| `EventBus.Bus.GetFilterHandlers` | core/events/bus.go:268-299 | every subscription whose pattern matches exactly once, no other, in non-decreasing priority |
| `ServiceContainer.OneInstance` | core/services/container.go:150-211 | under every interleaving of lookups, provider runs and commits without Unregister, all successful calls for a type return one instance |
| `ServiceContainer.GetAlone` | core/services/container.go:150-211 | a call that nothing interrupts: the cached instance at once, not registered, the failure of the provider, which leaves nothing behind, or what it makes, then cached |
| `ServiceContainer.RegistrationSteps` | core/services/container.go:78-127 | providing a registered service changes nothing; unregistering takes that service's provider and instance only |
| `ServiceContainer.AnswersStay` | core/services/container.go:150-211 | an answer given and an instance cached never change afterwards without Unregister |
| `ServiceContainer.BothProvidersRun` | core/services/container.go:178-205 | two calls may both run the provider, with different results, and still get one instance |
| `ServiceContainer.StaleCommit` | core/services/container.go:353-376 | with Unregister in between, a commit caches an instance of a service that is no longer registered |
| `ServiceContainer.StaleIff` | core/services/container.go:150-211 | after any run an instance is cached for an unregistered service if and only if a call under way at the last Unregister commits after it without the service being registered again |
| `ServiceContainer.OutdatedIff` | core/services/container.go:150-211 | after any run the cached instance is not one of the current registration if and only if a call under way at an Unregister was the first to commit after it |
| `ServiceContainer.OldInstanceUnderNewRegistration` | core/services/container.go:196-211 | a withdrawn provider's instance is cached and returned under the next registration |
| `ServiceContainer.NeverStale` | core/services/container.go:353-376 | so the cached instance is always one of the current registration when every Unregister meets no call under way |

## Left out

- bbolt, JSON, files, timestamps, `LastDecision` and malformed stored entries: buckets are maps, transactions are values, and every stored entry can be read back.
- `migrateLegacyBucket` (core/registry/bolt_unified.go:95-139): it copies legacy entries without writing dependency indexes, so a migrated database does not start consistent; the runs here start from the empty database.
- Texts of errors, risk reasons and recommended actions: an error is modelled by its kind and the references it names.
- Trust levels outside L1 to L3: the source stores them as `unknown` and cannot read them back (core/registry/route.go:44-77); here a level is one of the three.
- Interleavings: closing the registry between the steps of a call; the transitive and orphaned parts of a removal's report, which are read in further steps and written nowhere.
- Nil route pointers, and `Register` and `HotSwap` writing defaults through the caller's pointer: routes are values here, so a caller's later changes to a route it registered are not captured.
- `PluginLoadInfo` records are values in the plugin table, not shared pointers; nothing in the manager keeps one across operations.
- Events emitted on state changes, logging, and the persisted enabled flag.
- Callbacks of plugins calling back into the manager, and anything after a nil plugin object has been called: `StopPanicsIff` says when Stop gets there, and for Retry it is an outcome of its own.
- BuildStartupOrder: the resolver's answer is any list of names or a failure; only `OrdersAgree` and `RegistryStartup` use that it comes from the registry.
- FirstStart: manifests have names (validation elsewhere demands it); a plugin named by the empty string would count as a requirement of every malformed dependency.
- LifecycleRuns.RunsKeepBase: says nothing about the manager after a nil plugin object has been called; `RunsGoDownIff` says when a run gets there.
- LifecycleRuns.RunsStayClosedIff: the same.
- BoltRegistry.BoltUnifiedRegistry.constructor: does not model the migration of legacy buckets that runs on opening.
- LifecycleManager.ManagerImpl.Enable: does not model that the enabled flag is persisted, nor the events emitted.
- LifecycleManager.ManagerImpl.Disable: does not model that the enabled flag is persisted, nor the events emitted. The calls of the container's `Unregister` that it makes (core/lifecycle/implementation.go:370-374) pass names where a pointer is demanded (core/services/container.go:358-361); their errors are discarded and they unregister nothing.
- EventBus.Bus.constructor: does not model the tables of broadcast handlers.
- EventBus.Bus.Unsubscribe: does not model broadcast subscriptions, which the source searches too.
- RegistryStartup.RegistryRunsStopInOrder: the plugin routes of the registry stay the same over the run, but for enablement; `ResolvedOrderRespectsIff` is about a single Start and whatever is stored then.
- Version constraints of dependencies: the source accepts every nonempty one, the model only separates the name.
- SortEntries: the order of equal priorities is left open, as the library sort is not stable.
- Broadcast subscriptions, dispatching, and the fallback to the original event when a filter returns none.
- ServiceContainer: a state machine over the three steps of `Get` rather than a class, because the interleaving is the point; named services, `Clear` and providers that panic are not modelled, and a provider's own `Get` calls are further calls of the run.
- GrantedIff: calls in the order of their clock readings; concurrent calls whose readings are applied out of order are not covered.
- SplitSQLStatements: text is a sequence of characters, so bytes that are not valid UTF-8 are not covered; applying and reverting migrations is not modelled.
- Trust decisions and risk thresholds, conversion between manifests and routes beyond the plugin requirements used for the agreement of the two orders, discovery, authentication, HTTP, content, cache, themes, the schema differ and its executors, and the Wasm host.

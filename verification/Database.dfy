/**
 The contents of the route database and what each committed transaction does to them.
 Buckets are maps; a transaction that fails leaves the old value in place.
 */
module Database {
  import opened Wrappers
  import opened Lexical
  import opened Routes

  type Buckets = map<string, map<string, Route>>
  type RefIndex = map<string, seq<RouteRef>>

  /** One route bucket per type, and the forward and reverse dependency buckets. */
  datatype Db = Db(routes: Buckets, forward: RefIndex, reverse: RefIndex)

  datatype StoreError =
    | InvalidRoute
    | BelowTrust(provider: RouteRef)
    | Closed
    | NotFound
    | AlreadyExists

  function EmptyDb(): Db {
    Db(map t | t in ROUTE_TYPES :: map[], map[], map[])
  }

  predicate Has(b: Buckets, ref: RouteRef) {
    ref.typ in b && RouteKey(ref.domain, ref.name) in b[ref.typ]
  }

  function Lookup(b: Buckets, ref: RouteRef): Route
    requires Has(b, ref)
  {
    b[ref.typ][RouteKey(ref.domain, ref.name)]
  }

  function Put(b: Buckets, typ: string, key: string, r: Route): Buckets
    requires typ in b
  {
    b[typ := b[typ][key := r]]
  }

  function Delete(b: Buckets, typ: string, key: string): Buckets
    requires typ in b
  {
    b[typ := b[typ] - {key}]
  }

  function At(index: RefIndex, k: string): seq<RouteRef> {
    if k in index then index[k] else []
  }

  // ----- the dependency indexes -----

  /** Files `ref` under each of `deps`, once per occurrence. */
  function AddForward(forward: RefIndex, deps: seq<RouteRef>, ref: RouteRef): RefIndex {
    if deps == [] then forward else
      var f := AddForward(forward, deps[..|deps| - 1], ref);
      var k := deps[|deps| - 1].String();
      f[k := At(f, k) + [ref]]
  }

  function AddReverse(reverse: RefIndex, r: Route): RefIndex {
    if |r.requirements| > 0 then reverse[r.Key() := r.requirements] else reverse
  }

  function AddIndexes(db: Db, r: Route): Db {
    db.(reverse := AddReverse(db.reverse, r), forward := AddForward(db.forward, r.requirements, r.Ref()))
  }

  /** The references whose string differs from `key`. */
  function KeepOthers(refs: seq<RouteRef>, key: string): seq<RouteRef> {
    if refs == [] then [] else
      var front := KeepOthers(refs[..|refs| - 1], key);
      var d := refs[|refs| - 1];
      if d.String() != key then front + [d] else front
  }

  function DropAt(forward: RefIndex, k: string, key: string): RefIndex {
    if k !in forward then forward else
      var filtered := KeepOthers(forward[k], key);
      if |filtered| == 0 then forward - {k} else forward[k := filtered]
  }

  /** Takes `key` out of the entries of each of `deps`. */
  function DropForward(forward: RefIndex, deps: seq<RouteRef>, key: string): RefIndex {
    if deps == [] then forward else
      DropAt(DropForward(forward, deps[..|deps| - 1], key), deps[|deps| - 1].String(), key)
  }

  function RemoveIndexes(db: Db, ref: RouteRef): Db {
    var key := ref.String();
    db.(forward := DropForward(db.forward, At(db.reverse, key), key), reverse := db.reverse - {key})
  }

  // ----- register and hot-swap -----

  function TrustOf(b: Buckets, provider: RouteRef): TrustLevel {
    if Has(b, provider) then Lookup(b, provider).trustLevel else TRUST_L1
  }

  /** The first requirement below the route's trust level; providers not registered yet count as L1. */
  function TrustFault(b: Buckets, level: TrustLevel, deps: seq<RouteRef>): Option<RouteRef> {
    if deps == [] then None
    else if !TrustAllows(level, TrustOf(b, deps[0])) then Some(deps[0])
    else TrustFault(b, level, deps[1..])
  }

  /** The checks Register and HotSwap make before they take the write lock. */
  function Admit(b: Buckets, r: Route): Option<StoreError> {
    if !Validates(r) then Some(InvalidRoute)
    else match TrustFault(b, r.trustLevel, r.requirements)
      case Some(provider) => Some(BelowTrust(provider))
      case None => None
  }

  function WithDefaults(r: Route): Route {
    r.(state := if r.state == "" then STATE_INACTIVE else r.state,
       declaredTrust := if r.declaredTrust == TRUST_L1 && r.trustLevel != TRUST_L1 then r.trustLevel else r.declaredTrust,
       effectiveTrust := if r.effectiveTrust == TRUST_L1 && r.trustLevel != TRUST_L1 then r.trustLevel else r.effectiveTrust,
       trustState := if r.trustState == "" then TRUST_ALLOW else r.trustState,
       capabilityGrants := if r.capabilityGrants == [] && r.capabilities != [] then r.capabilities else r.capabilityGrants,
       policyRevision := if r.policyRevision == "" then DEFAULT_POLICY else r.policyRevision)
  }

  /** The transaction of Register, under the write lock. */
  function RegisterTx(db: Db, route: Route): Result<Db, StoreError> {
    var r := WithDefaults(route);
    var key := RouteKey(r.domain, r.name);
    if r.typ !in db.routes then Failure(NotFound)
    else if key in db.routes[r.typ] then Failure(AlreadyExists)
    else Success(AddIndexes(db.(routes := Put(db.routes, r.typ, key, r)), r))
  }

  function Register(db: Db, route: Route): Result<Db, StoreError> {
    match Admit(db.routes, route)
    case Some(e) => Failure(e)
    case None => RegisterTx(db, route)
  }

  /** The stored form of `incoming` when it replaces `former`: policy and enablement carry over. */
  function Succeeding(former: Route, incoming: Route): Route {
    var r := incoming.(enabled := former.enabled,
                    declaredTrust := if former.declaredTrust == TRUST_L1 && incoming.trustLevel != TRUST_L1
                                     then incoming.trustLevel else former.declaredTrust,
                    effectiveTrust := former.effectiveTrust,
                    riskScore := former.riskScore,
                    trustState := former.trustState,
                    policyRevision := former.policyRevision,
                    capabilityGrants := if incoming.capabilityGrants == [] then former.capabilityGrants else incoming.capabilityGrants);
    if |incoming.capabilities| > |former.capabilities|
    then r.(state := STATE_PENDING_REVIEW, trustState := STATE_PENDING_REVIEW)
    else r
  }

  /** The transaction of HotSwap. */
  function HotSwapTx(db: Db, ref: RouteRef, route: Route): Result<Db, StoreError> {
    if !Has(db.routes, ref) then Failure(NotFound) else
      var r := Succeeding(Lookup(db.routes, ref), route);
      var oldKey, newKey := RouteKey(ref.domain, ref.name), RouteKey(r.domain, r.name);
      var cleared := RemoveIndexes(db, ref);
      var b := if newKey != oldKey then Delete(db.routes, ref.typ, oldKey) else db.routes;
      Success(AddIndexes(cleared.(routes := Put(b, ref.typ, newKey, r)), r))
  }

  function HotSwap(db: Db, ref: RouteRef, route: Route): Result<Db, StoreError> {
    match Admit(db.routes, route)
    case Some(e) => Failure(e)
    case None => HotSwapTx(db, ref, route)
  }

  // ----- the other writes -----

  /** The stored routes that the forward index files under a key. */
  function DependentsAt(db: Db, k: string): seq<Route> {
    Present(db.routes, At(db.forward, k))
  }

  function DependentsOf(db: Db, ref: RouteRef): seq<Route> {
    DependentsAt(db, ref.String())
  }

  /** The stored routes that the reverse index files under `ref`. */
  function DependenciesOf(db: Db, ref: RouteRef): seq<Route> {
    Present(db.routes, At(db.reverse, ref.String()))
  }

  /** The routes stored under `refs`, dangling references skipped. */
  function Present(b: Buckets, refs: seq<RouteRef>): seq<Route> {
    if refs == [] then [] else
      var front := Present(b, refs[..|refs| - 1]);
      if Has(b, refs[|refs| - 1]) then front + [Lookup(b, refs[|refs| - 1])] else front
  }

  function MarkOrphaned(b: Buckets, ref: RouteRef): Buckets {
    if !Has(b, ref) then b else
      Put(b, ref.typ, RouteKey(ref.domain, ref.name), Lookup(b, ref).(state := STATE_ORPHANED))
  }

  function MarkAllOrphaned(b: Buckets, refs: seq<RouteRef>): Buckets {
    if refs == [] then b else MarkOrphaned(MarkAllOrphaned(b, refs[..|refs| - 1]), refs[|refs| - 1])
  }

  function Refs(routes: seq<Route>): (refs: seq<RouteRef>)
    ensures |refs| == |routes|
  {
    seq(|routes|, i requires 0 <= i < |routes| => routes[i].Ref())
  }

  /** The transaction of Remove; `dependents` were read before it. */
  function RemoveTx(db: Db, ref: RouteRef, dependents: seq<RouteRef>): Result<Db, StoreError> {
    if !Has(db.routes, ref) then Failure(NotFound) else
      var b := MarkAllOrphaned(db.routes, dependents);
      Success(RemoveIndexes(db, ref).(routes := if ref.typ in b then Delete(b, ref.typ, RouteKey(ref.domain, ref.name)) else b))
  }

  function Remove(db: Db, ref: RouteRef): Result<Db, StoreError> {
    RemoveTx(db, ref, Refs(DependentsOf(db, ref)))
  }

  function Update(db: Db, ref: RouteRef, payload: string): Result<Db, StoreError> {
    if !Has(db.routes, ref) then Failure(NotFound) else
      Success(db.(routes := Put(db.routes, ref.typ, RouteKey(ref.domain, ref.name),
                                Lookup(db.routes, ref).(payload := payload))))
  }

  function SetEnabled(db: Db, ref: RouteRef, enabled: bool, state: string): Result<Db, StoreError> {
    if !Has(db.routes, ref) then Failure(NotFound) else
      var r := Lookup(db.routes, ref);
      if r.enabled == enabled && r.state == state then Success(db) else
        Success(db.(routes := Put(db.routes, ref.typ, RouteKey(ref.domain, ref.name),
                                  r.(enabled := enabled, state := state))))
  }

  // ----- listing -----

  datatype ListOptions = ListOptions(typ: Option<string>, domain: string, enabled: Option<bool>,
                                     trustLevel: Option<TrustLevel>, state: Option<string>)
  {
    predicate Matches(r: Route) {
      && (typ.Some? ==> r.typ == typ.value)
      && (domain != "" ==> r.domain == domain)
      && (enabled.Some? ==> r.enabled == enabled.value)
      && (trustLevel.Some? ==> r.trustLevel == trustLevel.value)
      && (state.Some? ==> r.state == state.value)
    }
  }

  const NO_FILTER := ListOptions(None, "", None, None, None)

  /** The matching routes of one bucket, in the given key order. */
  function Matching(bucket: map<string, Route>, keys: seq<string>, opts: ListOptions): seq<Route>
    requires forall k :: k in keys ==> k in bucket
  {
    if keys == [] then [] else
      var front := Matching(bucket, keys[..|keys| - 1], opts);
      var r := bucket[keys[|keys| - 1]];
      if opts.Matches(r) then front + [r] else front
  }

  ghost function ListBucket(b: Buckets, typ: string, opts: ListOptions): seq<Route> {
    if typ !in b then [] else
      SortedOfExact(b[typ].Keys);
      Matching(b[typ], SortedOf(b[typ].Keys), opts)
  }

  ghost function ListTypes(b: Buckets, types: seq<string>, opts: ListOptions): seq<Route> {
    if types == [] then [] else
      ListTypes(b, types[..|types| - 1], opts) + ListBucket(b, types[|types| - 1], opts)
  }

  ghost function List(b: Buckets, opts: ListOptions): seq<Route> {
    if opts.typ.Some? then ListBucket(b, opts.typ.value, opts) else ListTypes(b, ROUTE_TYPES, opts)
  }
}

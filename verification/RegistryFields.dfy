/** Field by field, what each write of the registry stores, and which error refuses it. */
module RegistryFields {
  import opened Wrappers
  import opened Lexical
  import opened Routes
  import opened Database
  import opened IndexTheorems
  import opened RegistryTheorems

  // ----- what is valid -----

  /** Just enough regular expressions for the two that routes are checked against; a class is a list of character ranges. */
  datatype Regex = OneOf(ranges: seq<(char, char)>) | Then(first: Regex, second: Regex) | Many(each: Regex)

  predicate InClass(c: char, ranges: seq<(char, char)>) {
    exists i :: 0 <= i < |ranges| && ranges[i].0 <= c <= ranges[i].1
  }

  ghost predicate Accepts(re: Regex, s: string)
    decreases re, |s|
  {
    match re
    case OneOf(ranges) => |s| == 1 && InClass(s[0], ranges)
    case Then(first, second) => exists k :: 0 <= k <= |s| && Accepts(first, s[..k]) && Accepts(second, s[k..])
    case Many(each) => s == "" || exists k :: 0 < k <= |s| && Accepts(each, s[..k]) && Accepts(re, s[k..])
  }

  /** `^[a-z0-9][a-z0-9.-]*$` */
  const DOMAIN_PATTERN := Then(OneOf([('a', 'z'), ('0', '9')]), Many(OneOf([('a', 'z'), ('0', '9'), ('.', '.'), ('-', '-')])))

  /** `^[a-z][a-z0-9-]*$` */
  const NAME_PATTERN := Then(OneOf([('a', 'z')]), Many(OneOf([('a', 'z'), ('0', '9'), ('-', '-')])))

  lemma {:induction false} ManyOf(ranges: seq<(char, char)>, s: string)
    ensures Accepts(Many(OneOf(ranges)), s) <==> forall c :: c in s ==> InClass(c, ranges)
    decreases |s|
  {
    hide InClass;
    if s != "" {
      ManyOf(ranges, s[1..]);
      assert s == [s[0]] + s[1..];
      if k :| 0 < k <= |s| && Accepts(OneOf(ranges), s[..k]) && Accepts(Many(OneOf(ranges)), s[k..]) {
        assert k == 1 && s[..1][0] == s[0];
      }
      if forall c :: c in s ==> InClass(c, ranges) {
        assert s[0] in s && Accepts(OneOf(ranges), s[..1]);
        assert forall c :: c in s[1..] ==> c in s;
      }
    }
  }

  lemma OneThenMany(ranges: seq<(char, char)>, more: seq<(char, char)>, s: string)
    requires forall c :: InClass(c, ranges) ==> InClass(c, more)
    ensures Accepts(Then(OneOf(ranges), Many(OneOf(more))), s)
            <==> s != "" && InClass(s[0], ranges) && forall c :: c in s ==> InClass(c, more)
  {
    hide InClass;
    if s != "" {
      ManyOf(more, s[1..]);
      assert s == [s[0]] + s[1..];
      if k :| 0 <= k <= |s| && Accepts(OneOf(ranges), s[..k]) && Accepts(Many(OneOf(more)), s[k..]) {
        assert k == 1 && s[..1][0] == s[0];
      }
      if InClass(s[0], ranges) && forall c :: c in s ==> InClass(c, more) {
        assert forall c :: c in s[1..] ==> c in s;
        assert Accepts(OneOf(ranges), s[..1]) && Accepts(Many(OneOf(more)), s[1..]);
      }
    }
  }

  lemma ClassesExact(c: char)
    ensures InClass(c, [('a', 'z')]) <==> Lower(c)
    ensures InClass(c, [('a', 'z'), ('0', '9')]) <==> Lower(c) || Digit(c)
    ensures InClass(c, [('a', 'z'), ('0', '9'), ('-', '-')]) <==> Lower(c) || Digit(c) || c == '-'
    ensures InClass(c, [('a', 'z'), ('0', '9'), ('.', '.'), ('-', '-')]) <==> Lower(c) || Digit(c) || c == '.' || c == '-'
  {
    var a, b, n, d := [('a', 'z')], [('a', 'z'), ('0', '9')], [('a', 'z'), ('0', '9'), ('-', '-')],
                      [('a', 'z'), ('0', '9'), ('.', '.'), ('-', '-')];
    assert a[0] == ('a', 'z');
    assert b[0] == ('a', 'z') && b[1] == ('0', '9');
    assert n[0] == ('a', 'z') && n[1] == ('0', '9') && n[2] == ('-', '-');
    assert d[0] == ('a', 'z') && d[1] == ('0', '9') && d[2] == ('.', '.') && d[3] == ('-', '-');
  }

  /** Domains and names are checked as the two patterns say. */
  lemma PatternsExact(s: string)
    ensures DomainOk(s) <==> Accepts(DOMAIN_PATTERN, s)
    ensures NameOk(s) <==> Accepts(NAME_PATTERN, s)
  {
    hide InClass, Accepts;
    forall c
      ensures InClass(c, [('a', 'z')]) <==> Lower(c)
      ensures InClass(c, [('a', 'z'), ('0', '9')]) <==> Lower(c) || Digit(c)
      ensures InClass(c, [('a', 'z'), ('0', '9'), ('-', '-')]) <==> Lower(c) || Digit(c) || c == '-'
      ensures InClass(c, [('a', 'z'), ('0', '9'), ('.', '.'), ('-', '-')]) <==> Lower(c) || Digit(c) || c == '.' || c == '-'
    { ClassesExact(c); }
    OneThenMany([('a', 'z'), ('0', '9')], [('a', 'z'), ('0', '9'), ('.', '.'), ('-', '-')], s);
    OneThenMany([('a', 'z')], [('a', 'z'), ('0', '9'), ('-', '-')], s);
  }

  /** The recognised types of routes and of the references they hold. */
  const TYPES := {"plugin", "service", "hook", "theme", "middleware", "license"}

  lemma TypesExact(t: string)
    ensures RouteType(t) <==> t in TYPES
  {
    assert ROUTE_TYPES == ["plugin", "service", "hook", "theme", "middleware", "license"];
  }

  ghost predicate WellFormed(r: Route) {
    && r.typ in TYPES && Accepts(DOMAIN_PATTERN, r.domain) && Accepts(NAME_PATTERN, r.name) && |r.version| > 0
    && r.engine in {"", "native", "l1", "grpc", "l2", "wasm", "l3"} && 0 <= r.riskScore <= 100
    && forall d :: d in r.requirements + r.provided ==> d.typ in TYPES && |d.name| > 0
  }

  lemma ValidatesIff(r: Route)
    ensures Validates(r) <==> WellFormed(r)
  {
    hide Accepts, DomainOk, NameOk, RouteType;
    PatternsExact(r.domain);
    PatternsExact(r.name);
    TypesExact(r.typ);
    forall d: RouteRef ensures RouteType(d.typ) <==> d.typ in TYPES { TypesExact(d.typ); }
    assert forall d :: d in r.requirements + r.provided <==> d in r.requirements || d in r.provided;
  }

  // ----- which error refuses a write -----

  /** The requirement at `i` is the first that is stored at a higher level than the route's. */
  ghost predicate FirstAbove(b: Buckets, route: Route, i: nat) {
    && i < |route.requirements| && Has(b, route.requirements[i]) && Lookup(b, route.requirements[i]).trustLevel > route.trustLevel
    && forall j :: 0 <= j < i && Has(b, route.requirements[j]) ==> Lookup(b, route.requirements[j]).trustLevel <= route.trustLevel
  }

  lemma {:induction false} TrustFaultFirst(b: Buckets, level: TrustLevel, deps: seq<RouteRef>) returns (i: nat)
    requires TrustFault(b, level, deps).Some?
    ensures i < |deps| && deps[i] == TrustFault(b, level, deps).value && Has(b, deps[i]) && Lookup(b, deps[i]).trustLevel > level
    ensures forall j :: 0 <= j < i && Has(b, deps[j]) ==> Lookup(b, deps[j]).trustLevel <= level
  {
    hide Has, Lookup;
    if TrustOf(b, deps[0]) > level {
      i := 0;
    } else {
      var k := TrustFaultFirst(b, level, deps[1..]);
      i := k + 1;
      forall j | 0 <= j < i && Has(b, deps[j]) ensures Lookup(b, deps[j]).trustLevel <= level {
        if j > 0 { assert deps[1..][j - 1] == deps[j]; }
      }
    }
  }

  /** The two checks before the transaction, in that order. */
  lemma AdmitExact(b: Buckets, route: Route)
    ensures Admit(b, route) == Some(InvalidRoute) <==> !WellFormed(route)
    ensures Admit(b, route).Some? && Admit(b, route).value.BelowTrust? ==>
              WellFormed(route) && exists i: nat :: FirstAbove(b, route, i) && Admit(b, route).value.provider == route.requirements[i]
    ensures Admit(b, route).None? <==> WellFormed(route) && forall i: nat :: !FirstAbove(b, route, i)
  {
    hide WellFormed, Validates, Has, Lookup;
    ValidatesIff(route);
    TrustFaultNone(b, route.trustLevel, route.requirements);
    if TrustFault(b, route.trustLevel, route.requirements).Some? {
      var i := TrustFaultFirst(b, route.trustLevel, route.requirements);
      assert FirstAbove(b, route, i);
    } else {
      forall i: nat ensures !FirstAbove(b, route, i) {
        if i < |route.requirements| { TrustOfStored(b, route.requirements[i]); assert route.requirements[i] in route.requirements; }
      }
    }
  }

  lemma TrustOfStored(b: Buckets, d: RouteRef)
    ensures Has(b, d) ==> TrustOf(b, d) == Lookup(b, d).trustLevel
  {}

  lemma RegisterErrors(db: Db, route: Route)
    requires Keyed(db.routes)
    ensures Admit(db.routes, route).Some? ==> Register(db, route) == Failure(Admit(db.routes, route).value)
    ensures Admit(db.routes, route).None? && Has(db.routes, route.Ref()) ==> Register(db, route) == Failure(AlreadyExists)
    ensures Admit(db.routes, route).None? && !Has(db.routes, route.Ref()) ==> Register(db, route).Success?
  {
    hide Validates, RouteKey, AddIndexes, Keyed;
    if Validates(route) { TypeKnown(db.routes, route); }
  }

  lemma HotSwapErrors(db: Db, ref: RouteRef, route: Route)
    ensures Admit(db.routes, route).Some? ==> HotSwap(db, ref, route) == Failure(Admit(db.routes, route).value)
    ensures Admit(db.routes, route).None? && !Has(db.routes, ref) ==> HotSwap(db, ref, route) == Failure(NotFound)
    ensures Admit(db.routes, route).None? && Has(db.routes, ref) ==> HotSwap(db, ref, route).Success?
  {
    hide Validates, RouteKey, AddIndexes, TrustFault;
  }

  // ----- what is stored -----

  ghost predicate SameDeclared(a: Route, b: Route) {
    && a.typ == b.typ && a.domain == b.domain && a.name == b.name && a.version == b.version && a.engine == b.engine
    && a.trustLevel == b.trustLevel && a.requirements == b.requirements && a.provided == b.provided
    && a.payload == b.payload && a.capabilities == b.capabilities
  }

  /** A registered route is stored as declared; what its policy leaves open is filled in. */
  lemma RegisteredFields(db: Db, route: Route)
    requires Keyed(db.routes) && Register(db, route).Success?
    ensures Has(Register(db, route).value.routes, route.Ref())
    ensures var r := Lookup(Register(db, route).value.routes, route.Ref());
            && SameDeclared(r, route) && r.enabled == route.enabled && r.riskScore == route.riskScore
            && r.state == (if route.state == "" then "inactive" else route.state)
            && r.trustState == (if route.trustState == "" then "allow" else route.trustState)
            && r.policyRevision == (if route.policyRevision == "" then "builtin:v1" else route.policyRevision)
            && r.declaredTrust == (if route.declaredTrust == 0 then route.trustLevel else route.declaredTrust)
            && r.effectiveTrust == (if route.effectiveTrust == 0 then route.trustLevel else route.effectiveTrust)
            && r.capabilityGrants == (if route.capabilityGrants == [] then route.capabilities else route.capabilityGrants)
  {
    hide Validates, Register, Keyed, Has, Lookup, RouteKey;
    RegisterExact(db, route, route.Ref());
  }

  /**
   A swapped-in route is stored as declared, under the enablement and the policy of the former one. If it declares more
   capabilities than the former one it is held back for review.
   */
  lemma SwappedFields(db: Db, ref: RouteRef, route: Route)
    requires Keyed(db.routes) && Validates(route) && HotSwapTx(db, ref, route).Success?
    ensures Has(db.routes, ref) && Has(HotSwapTx(db, ref, route).value.routes, Landing(ref, route))
    ensures var former, r := Lookup(db.routes, ref), Lookup(HotSwapTx(db, ref, route).value.routes, Landing(ref, route));
            var more := |route.capabilities| > |former.capabilities|;
            && SameDeclared(r, route)
            && r.enabled == former.enabled && r.effectiveTrust == former.effectiveTrust && r.riskScore == former.riskScore
            && r.policyRevision == former.policyRevision
            && r.declaredTrust == (if former.declaredTrust == 0 then route.trustLevel else former.declaredTrust)
            && r.capabilityGrants == (if route.capabilityGrants == [] then former.capabilityGrants else route.capabilityGrants)
            && r.state == (if more then "pending_review" else route.state)
            && r.trustState == (if more then "pending_review" else former.trustState)
  {
    assert Has(db.routes, ref);
    hide Validates, HotSwapTx, Keyed, Has, Lookup, RouteKey;
    HotSwapExact(db, ref, route, Landing(ref, route));
  }

  /** Putting a rewritten route back under its own key touches no other. */
  lemma RewrittenAlone(b: Buckets, ref: RouteRef, r: Route, x: RouteRef)
    requires Keyed(b) && Has(b, ref)
    requires var q := Lookup(b, ref); r == q.(payload := r.payload, enabled := r.enabled, state := r.state)
    ensures var c := Put(b, ref.typ, RouteKey(ref.domain, ref.name), r);
            (Has(c, x) <==> Has(b, x)) && (Has(c, x) ==> Lookup(c, x) == if x == ref then r else Lookup(b, x))
  {
    hide Validates, Keyed, RouteKey;
    StoredUnderItsKey(b, ref);
    SameIdentityValidates(Lookup(b, ref), r);
    StoredExactly(b, ref.typ, r, x);
  }

  /**
   Enabling or disabling succeeds exactly on a stored route; afterwards that route has the enablement and state asked for
   and is otherwise as before, and so is every other.
   */
  lemma SetEnabledExact(db: Db, ref: RouteRef, enabled: bool, state: string, x: RouteRef)
    requires Keyed(db.routes)
    ensures SetEnabled(db, ref, enabled, state) == Failure(NotFound) <==> !Has(db.routes, ref)
    ensures Has(db.routes, ref) ==>
              && SetEnabled(db, ref, enabled, state).Success?
              && var after := SetEnabled(db, ref, enabled, state).value.routes;
                 && (Has(after, x) <==> Has(db.routes, x))
                 && (Has(after, x) && x != ref ==> Lookup(after, x) == Lookup(db.routes, x))
                 && (x == ref ==> var q, r := Lookup(db.routes, x), Lookup(after, x);
                                  r.enabled == enabled && r.state == state && r == q.(enabled := r.enabled, state := r.state))
  {
    hide Validates, Keyed, RouteKey;
    if Has(db.routes, ref) { RewrittenAlone(db.routes, ref, Lookup(db.routes, ref).(enabled := enabled, state := state), x); }
  }

  /** The same for the payload. */
  lemma UpdateExact(db: Db, ref: RouteRef, payload: string, x: RouteRef)
    requires Keyed(db.routes)
    ensures Update(db, ref, payload) == Failure(NotFound) <==> !Has(db.routes, ref)
    ensures Has(db.routes, ref) ==>
              && Update(db, ref, payload).Success?
              && var after := Update(db, ref, payload).value.routes;
                 && (Has(after, x) <==> Has(db.routes, x))
                 && (Has(after, x) && x != ref ==> Lookup(after, x) == Lookup(db.routes, x))
                 && (x == ref ==> var q, r := Lookup(db.routes, x), Lookup(after, x);
                                  r.payload == payload && r == q.(payload := r.payload))
  {
    hide Validates, Keyed, RouteKey;
    if Has(db.routes, ref) { RewrittenAlone(db.routes, ref, Lookup(db.routes, ref).(payload := payload), x); }
  }

  // ----- the order of a listing -----

  /** The buckets in which routes lie come in this order. */
  ghost function TypeRank(t: string): nat {
    if t == "plugin" then 0 else if t == "service" then 1 else if t == "hook" then 2
    else if t == "theme" then 3 else if t == "middleware" then 4 else 5
  }

  ghost predicate ListedBefore(r: Route, q: Route) {
    TypeRank(r.typ) < TypeRank(q.typ) || (r.typ == q.typ && Earlier(r.domain + "/" + r.name, q.domain + "/" + q.name))
  }

  lemma {:induction false} MatchingOrdered(t: string, bucket: map<string, Route>, keys: seq<string>, opts: ListOptions)
    requires Filed(t, bucket) && (forall k :: k in keys ==> k in bucket) && Ascending(keys)
    ensures forall i, j :: 0 <= i < j < |Matching(bucket, keys, opts)| ==>
              Earlier(RouteKey(Matching(bucket, keys, opts)[i].domain, Matching(bucket, keys, opts)[i].name),
                      RouteKey(Matching(bucket, keys, opts)[j].domain, Matching(bucket, keys, opts)[j].name))
    ensures forall r :: r in Matching(bucket, keys, opts) ==> r.typ == t && RouteKey(r.domain, r.name) in keys
  {
    hide Earlier, Validates, RouteKey, Less, ListOptions.Matches;
    if keys != [] {
      var n := |keys| - 1;
      var l, front := Matching(bucket, keys, opts), Matching(bucket, keys[..n], opts);
      assert keys == keys[..n] + [keys[n]];
      MatchingOrdered(t, bucket, keys[..n], opts);
      forall i | 0 <= i < |front| ensures Earlier(RouteKey(front[i].domain, front[i].name), keys[n]) {
        assert front[i] in front;
        var m :| 0 <= m < n && keys[..n][m] == RouteKey(front[i].domain, front[i].name);
        assert Less(keys[m], keys[n]);
        LessIff(keys[m], keys[n]);
      }
    }
  }

  lemma BucketOrdered(b: Buckets, t: string, opts: ListOptions)
    requires WellBucketed(b)
    ensures forall i, j :: 0 <= i < j < |ListBucket(b, t, opts)| ==> ListedBefore(ListBucket(b, t, opts)[i], ListBucket(b, t, opts)[j])
    ensures forall r :: r in ListBucket(b, t, opts) ==> r.typ == t
  {
    hide Earlier, Validates, Ascending, Matching;
    if t in b {
      SortedOfExact(b[t].Keys);
      MatchingOrdered(t, b[t], SortedOf(b[t].Keys), opts);
      var l := ListBucket(b, t, opts);
      forall i | 0 <= i < |l| ensures l[i].typ == t { assert l[i] in l; }
    }
  }

  ghost predicate RanksUp(types: seq<string>) {
    forall i, j :: 0 <= i < j < |types| ==> TypeRank(types[i]) < TypeRank(types[j])
  }

  lemma {:induction false} TypesOrdered(b: Buckets, types: seq<string>, opts: ListOptions)
    requires WellBucketed(b) && RanksUp(types)
    ensures forall i, j :: 0 <= i < j < |ListTypes(b, types, opts)| ==> ListedBefore(ListTypes(b, types, opts)[i], ListTypes(b, types, opts)[j])
    ensures forall r :: r in ListTypes(b, types, opts) ==> r.typ in types
  {
    hide Earlier, WellBucketed, ListBucket, TypeRank;
    if types != [] {
      var n := |types| - 1;
      var front, last := ListTypes(b, types[..n], opts), ListBucket(b, types[n], opts);
      assert types == types[..n] + [types[n]];
      TypesOrdered(b, types[..n], opts);
      BucketOrdered(b, types[n], opts);
      forall i, j | 0 <= i < |front| && 0 <= j < |last| ensures ListedBefore(front[i], last[j]) {
        assert front[i] in front && last[j] in last;
        var m :| 0 <= m < n && types[..n][m] == front[i].typ;
        assert TypeRank(types[m]) < TypeRank(types[n]);
      }
    }
  }

  /** A listing goes through the types in their fixed order, and within a type upwards in byte order of the keys. */
  lemma ListOrdered(b: Buckets, opts: ListOptions, i: nat, j: nat)
    requires WellBucketed(b) && i < j < |List(b, opts)|
    ensures ListedBefore(List(b, opts)[i], List(b, opts)[j])
  {
    hide Earlier, WellBucketed, ListBucket, ListTypes;
    if opts.typ.Some? {
      BucketOrdered(b, opts.typ.value, opts);
    } else {
      TypesRankUp();
      TypesOrdered(b, ROUTE_TYPES, opts);
    }
  }

  lemma TypesRankUp()
    ensures RanksUp(ROUTE_TYPES)
  {}
}

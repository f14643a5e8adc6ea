/** Routes, references to them, and the string keys under which the registry and the resolver file them. */
module Routes {

  /** Route types are strings, as in the stored form; these are the recognised ones, in bucket order. */
  const ROUTE_TYPES: seq<string> := ["plugin", "service", "hook", "theme", "middleware", "license"]

  const PLUGIN := "plugin"
  const DEFAULT_DOMAIN := "aroute"

  /** From native code, trusted most, to sandboxed third-party code. */
  type TrustLevel = level: int | 0 <= level <= 2

  const TRUST_L1: TrustLevel := 0
  const TRUST_L3: TrustLevel := 2

  const STATE_ACTIVE := "active"
  const STATE_INACTIVE := "inactive"
  const STATE_PENDING_REVIEW := "pending_review"
  const STATE_ORPHANED := "orphaned"
  const TRUST_ALLOW := "allow"
  const DEFAULT_POLICY := "builtin:v1"

  datatype RouteRef = RouteRef(typ: string, domain: string, name: string) {
    function String(): string {
      typ + "/" + domain + "/" + name
    }
  }

  function PluginRef(name: string): RouteRef {
    RouteRef(PLUGIN, DEFAULT_DOMAIN, name)
  }

  datatype Route = Route(
    typ: string,
    domain: string,
    name: string,
    version: string,
    trustLevel: TrustLevel,
    declaredTrust: TrustLevel,
    effectiveTrust: TrustLevel,
    engine: string,
    state: string,
    enabled: bool,
    requirements: seq<RouteRef>,
    provided: seq<RouteRef>,
    payload: string,
    capabilities: seq<string>,
    capabilityGrants: seq<string>,
    riskScore: int,
    trustState: string,
    policyRevision: string)
  {
    function Ref(): RouteRef {
      RouteRef(typ, domain, name)
    }

    function Key(): string {
      Ref().String()
    }

    /** The keys this route requires, in declaration order and with repetitions. */
    function DepKeys(): (keys: seq<string>)
      ensures |keys| == |requirements|
    {
      Strings(requirements)
    }
  }

  function Strings(refs: seq<RouteRef>): (s: seq<string>)
    ensures |s| == |refs|
  {
    seq(|refs|, i requires 0 <= i < |refs| => refs[i].String())
  }

  /** A consumer may not depend on a provider that is trusted less than itself. */
  predicate TrustAllows(consumer: TrustLevel, provider: TrustLevel) {
    !(consumer < provider)
  }

  // ----- validation -----

  predicate Lower(c: char) { 'a' <= c <= 'z' }

  predicate Digit(c: char) { '0' <= c <= '9' }

  predicate DomainOk(s: string) {
    s != "" && (Lower(s[0]) || Digit(s[0])) && forall c :: c in s ==> Lower(c) || Digit(c) || c == '.' || c == '-'
  }

  predicate NameOk(s: string) {
    s != "" && Lower(s[0]) && forall c :: c in s ==> Lower(c) || Digit(c) || c == '-'
  }

  predicate RouteType(t: string) {
    t in ROUTE_TYPES
  }

  predicate RefsOk(refs: seq<RouteRef>) {
    forall d :: d in refs ==> RouteType(d.typ) && d.name != ""
  }

  predicate EngineOk(engine: string) {
    engine in ["", "native", "l1", "grpc", "l2", "wasm", "l3"]
  }

  predicate Validates(r: Route) {
    && RouteType(r.typ)
    && DomainOk(r.domain)
    && NameOk(r.name)
    && r.version != ""
    && EngineOk(r.engine)
    && 0 <= r.riskScore <= 100
    && RefsOk(r.requirements)
    && RefsOk(r.provided)
  }

  // ----- keys -----

  /** The key of a route inside the bucket of its type. */
  function RouteKey(domain: string, name: string): string {
    domain + "/" + name
  }

  predicate SlashFree(s: string) {
    '/' !in s
  }

  lemma FirstSlash(a: string, x: string, b: string, y: string)
    requires SlashFree(a) && SlashFree(b) && a + "/" + x == b + "/" + y
    ensures a == b && x == y
  {
    var s := a + "/" + x;
    assert s[|a|] == '/' && s[|b|] == '/';
    assert forall i :: 0 <= i < |a| ==> s[i] == a[i];
    assert forall i :: 0 <= i < |b| ==> s[i] == b[i];
    assert a == s[..|a|] && b == s[..|b|];
    assert x == s[|a| + 1..] && y == s[|b| + 1..];
  }

  lemma OnlySlash(a: string, x: string, b: string, y: string)
    requires SlashFree(b) && SlashFree(y) && a + "/" + x == b + "/" + y
    ensures a == b && x == y
  {
    var s := a + "/" + x;
    assert s[|a|] == '/';
    assert forall i :: 0 <= i < |y| ==> s[|b| + 1 + i] == y[i];
    assert forall i :: 0 <= i < |b| ==> s[i] == b[i];
    assert a == s[..|a|] && b == s[..|b|];
    assert x == s[|a| + 1..] && y == s[|b| + 1..];
  }

  /** Two-part bucket keys of validated routes identify domain and name. */
  lemma RouteKeyInjective(domain: string, name: string, r: Route)
    requires Validates(r) && RouteKey(domain, name) == RouteKey(r.domain, r.name)
    ensures domain == r.domain && name == r.name
  {
    OnlySlash(domain, name, r.domain, r.name);
  }

  /**
   A reference of a recognised type whose string is the key of a validated route refers to that route,
   even though the reference's own domain and name are not checked for slashes.
   */
  lemma RefStringIdentifies(ref: RouteRef, r: Route)
    requires RouteType(ref.typ) && Validates(r) && ref.String() == r.Key()
    ensures ref == r.Ref()
  {
    assert SlashFree(ref.typ);
    assert ref.String() == ref.typ + "/" + RouteKey(ref.domain, ref.name);
    assert r.Key() == r.typ + "/" + RouteKey(r.domain, r.name);
    FirstSlash(ref.typ, RouteKey(ref.domain, ref.name), r.typ, RouteKey(r.domain, r.name));
    OnlySlash(ref.domain, ref.name, r.domain, r.name);
  }

  /** The encoding is not injective on references alone: a slash may sit in the domain or in the name. */
  lemma RefStringsCollide()
    ensures exists a: RouteRef, b: RouteRef :: RefsOk([a, b]) && a != b && a.String() == b.String()
  {
    var a, b := RouteRef("service", "a/b", "c"), RouteRef("service", "a", "b/c");
    assert a.String() == "service/a/b/c" == b.String();
    assert RefsOk([a, b]);
  }
}

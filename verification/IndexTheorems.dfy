/** The dependency indexes always agree with a scan of the stored routes, and exactly which hot swaps break that. */
module IndexTheorems {
  import opened Routes
  import opened Database

  ghost predicate Filed(t: string, bucket: map<string, Route>) {
    && (forall k :: k in bucket ==> bucket[k].typ == t && RouteKey(bucket[k].domain, bucket[k].name) == k)
    && (forall k {:trigger Validates(bucket[k])} :: k in bucket ==> Validates(bucket[k]))
  }

  /** Every bucket holds validated routes of its own type under their own keys. */
  ghost predicate WellBucketed(b: Buckets) {
    && (forall t :: t in b <==> RouteType(t))
    && (forall t :: t in b ==> Filed(t, b[t]))
  }

  /** The same, except that a bucket may hold routes of another type. */
  ghost predicate Keyed(b: Buckets) {
    && (forall t :: t in b <==> RouteType(t))
    && (forall t, k {:trigger b[t][k]} :: t in b && k in b[t] ==> Validates(b[t][k]) && RouteKey(b[t][k].domain, b[t][k].name) == k)
  }

  /** What the route stored under `ref` requires. */
  function NeedsAt(b: Buckets, ref: RouteRef): seq<RouteRef> {
    if Has(b, ref) then Lookup(b, ref).requirements else []
  }

  /** How often the route stored under `ref` requires key `k`. */
  function Uses(b: Buckets, ref: RouteRef, k: string): nat {
    multiset(Strings(NeedsAt(b, ref)))[k]
  }

  /** Under each key the forward index holds the bag of stored routes requiring it, and no empty entry. */
  ghost predicate ForwardExact(forward: RefIndex, b: Buckets) {
    && (forall k, ref :: multiset(At(forward, k))[ref] == Uses(b, ref, k))
    && (forall k :: k in forward ==> forward[k] != [])
  }

  /** The reverse index holds the requirements of each stored route that has any, and nothing else. */
  ghost predicate ReverseExact(reverse: RefIndex, b: Buckets) {
    && (forall ref :: NeedsAt(b, ref) != [] ==> ref.String() in reverse && reverse[ref.String()] == NeedsAt(b, ref))
    && (forall k :: k in reverse ==> exists ref :: NeedsAt(b, ref) != [] && ref.String() == k)
  }

  ghost predicate Consistent(db: Db) {
    WellBucketed(db.routes) && ForwardExact(db.forward, db.routes) && ReverseExact(db.reverse, db.routes)
  }

  // ----- references to stored routes -----

  lemma StoredUnderItsRef(b: Buckets, ref: RouteRef)
    requires WellBucketed(b) && Has(b, ref)
    ensures Lookup(b, ref).Ref() == ref && Validates(Lookup(b, ref)) && RouteType(ref.typ)
  {
    hide RouteRef.String, Validates;
    var r := Lookup(b, ref);
    assert b[ref.typ][RouteKey(ref.domain, ref.name)] == r;
    RouteKeyInjective(ref.domain, ref.name, r);
  }

  lemma WellBucketedKeyed(b: Buckets)
    requires WellBucketed(b)
    ensures Keyed(b)
  {
    hide Validates, RouteKey;
  }

  lemma StoredUnderItsKey(b: Buckets, ref: RouteRef)
    requires Keyed(b) && Has(b, ref)
    ensures Lookup(b, ref).domain == ref.domain && Lookup(b, ref).name == ref.name
    ensures Validates(Lookup(b, ref)) && RouteType(ref.typ)
  {
    hide Validates;
    var r := Lookup(b, ref);
    assert b[ref.typ][RouteKey(ref.domain, ref.name)] == r;
    RouteKeyInjective(ref.domain, ref.name, r);
  }

  /** Two stored references with one string are one reference. */
  lemma StoredStringsDiffer(b: Buckets, x: RouteRef, y: RouteRef)
    requires WellBucketed(b) && Has(b, x) && Has(b, y) && x.String() == y.String()
    ensures x == y
  {
    hide RouteRef.String, Validates, RouteKey;
    StoredUnderItsRef(b, x);
    StoredUnderItsRef(b, y);
    RefStringIdentifies(x, Lookup(b, y));
  }

  // ----- what the index updates do to counts -----

  lemma StringsAppend(refs: seq<RouteRef>)
    requires refs != []
    ensures Strings(refs) == Strings(refs[..|refs| - 1]) + [refs[|refs| - 1].String()]
  {}

  lemma {:induction false} AddForwardCounts(forward: RefIndex, deps: seq<RouteRef>, ref: RouteRef, k: string, x: RouteRef)
    ensures multiset(At(AddForward(forward, deps, ref), k))[x]
            == multiset(At(forward, k))[x] + if x == ref then multiset(Strings(deps))[k] else 0
  {
    hide RouteRef.String;
    if deps != [] {
      AddForwardCounts(forward, deps[..|deps| - 1], ref, k, x);
      StringsAppend(deps);
    }
  }

  lemma {:induction false} AddForwardFilled(forward: RefIndex, deps: seq<RouteRef>, ref: RouteRef)
    requires forall k :: k in forward ==> forward[k] != []
    ensures forall k :: k in AddForward(forward, deps, ref) ==> AddForward(forward, deps, ref)[k] != []
  {
    hide RouteRef.String;
    if deps != [] { AddForwardFilled(forward, deps[..|deps| - 1], ref); }
  }

  lemma {:induction false} KeepOthersCounts(refs: seq<RouteRef>, key: string, x: RouteRef)
    ensures multiset(KeepOthers(refs, key))[x] == if x.String() == key then 0 else multiset(refs)[x]
  {
    hide RouteRef.String;
    if refs != [] {
      var n := |refs| - 1;
      var kept := KeepOthers(refs[..n], key);
      KeepOthersCounts(refs[..n], key, x);
      assert refs == refs[..n] + [refs[n]];
      assert multiset(refs) == multiset(refs[..n]) + multiset{refs[n]};
      assert multiset(kept + [refs[n]]) == multiset(kept) + multiset{refs[n]};
    }
  }

  lemma {:induction false} DropForwardCounts(forward: RefIndex, deps: seq<RouteRef>, key: string, k: string, x: RouteRef)
    ensures multiset(At(DropForward(forward, deps, key), k))[x]
            == if x.String() == key && k in Strings(deps) then 0 else multiset(At(forward, k))[x]
  {
    hide RouteRef.String;
    if deps != [] {
      var n := |deps| - 1;
      var f := DropForward(forward, deps[..n], key);
      DropForwardCounts(forward, deps[..n], key, k, x);
      StringsAppend(deps);
      KeepOthersCounts(At(f, k), key, x);
    }
  }

  lemma {:induction false} DropForwardFilled(forward: RefIndex, deps: seq<RouteRef>, key: string)
    requires forall k :: k in forward ==> forward[k] != []
    ensures forall k :: k in DropForward(forward, deps, key) ==> DropForward(forward, deps, key)[k] != []
  {
    hide RouteRef.String;
    if deps != [] { DropForwardFilled(forward, deps[..|deps| - 1], key); }
  }

  // ----- writes that leave every requirement list alone -----

  ghost predicate SameNeeds(b: Buckets, c: Buckets) {
    forall ref :: NeedsAt(b, ref) == NeedsAt(c, ref)
  }

  lemma SameNeedsKeepsIndexes(db: Db, b: Buckets)
    requires Consistent(db) && WellBucketed(b) && SameNeeds(db.routes, b)
    ensures Consistent(db.(routes := b))
  {
    hide WellBucketed, NeedsAt, RouteRef.String;
    forall k, ref ensures Uses(b, ref, k) == Uses(db.routes, ref, k) {
      assert NeedsAt(db.routes, ref) == NeedsAt(b, ref);
    }
    forall k | k in db.reverse ensures exists ref :: NeedsAt(b, ref) != [] && ref.String() == k {
      var ref :| NeedsAt(db.routes, ref) != [] && ref.String() == k;
      assert NeedsAt(b, ref) != [];
    }
  }

  /** Rewriting a stored route in place, under the same reference and with the same requirements. */
  lemma RewriteInPlace(b: Buckets, ref: RouteRef, r: Route)
    requires WellBucketed(b) && Has(b, ref)
    requires r.Ref() == ref && Validates(r) && r.requirements == Lookup(b, ref).requirements
    ensures WellBucketed(Put(b, ref.typ, RouteKey(ref.domain, ref.name), r))
    ensures SameNeeds(b, Put(b, ref.typ, RouteKey(ref.domain, ref.name), r))
  {
    hide RouteRef.String, Validates, RouteKey;
    var c := Put(b, ref.typ, RouteKey(ref.domain, ref.name), r);
    forall x ensures NeedsAt(b, x) == NeedsAt(c, x) {}
  }

  lemma OrphanInPlace(b: Buckets, ref: RouteRef)
    requires WellBucketed(b)
    ensures WellBucketed(MarkOrphaned(b, ref)) && SameNeeds(b, MarkOrphaned(b, ref))
    ensures forall x :: Has(MarkOrphaned(b, ref), x) <==> Has(b, x)
  {
    hide RouteRef.String, RouteKey, WellBucketed, SameNeeds;
    if Has(b, ref) {
      StoredUnderItsRef(b, ref);
      var r := Lookup(b, ref).(state := STATE_ORPHANED);
      RewriteInPlace(b, ref, r);
    } else {
      SameNeedsReflexive(b);
    }
  }

  lemma SameNeedsReflexive(b: Buckets)
    ensures SameNeeds(b, b)
  {}

  lemma SameNeedsTransitive(a: Buckets, b: Buckets, c: Buckets)
    requires SameNeeds(a, b) && SameNeeds(b, c)
    ensures SameNeeds(a, c)
  {
    hide NeedsAt;
    forall ref ensures NeedsAt(a, ref) == NeedsAt(c, ref) {
      assert NeedsAt(a, ref) == NeedsAt(b, ref);
    }
  }

  lemma {:induction false} OrphansInPlace(b: Buckets, refs: seq<RouteRef>)
    requires WellBucketed(b)
    ensures WellBucketed(MarkAllOrphaned(b, refs)) && SameNeeds(b, MarkAllOrphaned(b, refs))
    ensures forall x :: Has(MarkAllOrphaned(b, refs), x) <==> Has(b, x)
  {
    hide RouteRef.String, RouteKey, WellBucketed, SameNeeds, Has;
    if refs == [] {
      SameNeedsReflexive(b);
    } else {
      var n := |refs| - 1;
      var c := MarkAllOrphaned(b, refs[..n]);
      OrphansInPlace(b, refs[..n]);
      OrphanInPlace(c, refs[n]);
      SameNeedsTransitive(b, c, MarkOrphaned(c, refs[n]));
    }
  }

  // ----- adding and deleting a route -----

  /** Storing `r` under its own reference. */
  function Inserted(b: Buckets, r: Route): Buckets
    requires r.typ in b
  {
    Put(b, r.typ, RouteKey(r.domain, r.name), r)
  }

  function Deleted(b: Buckets, ref: RouteRef): Buckets
    requires ref.typ in b
  {
    Delete(b, ref.typ, RouteKey(ref.domain, ref.name))
  }

  lemma TypeStored(b: Buckets, r: Route)
    requires WellBucketed(b) && Validates(r)
    ensures r.typ in b
  {}

  lemma StoreNeeds(b: Buckets, r: Route, x: RouteRef)
    requires WellBucketed(b) && Validates(r)
    ensures WellBucketed(Inserted(b, r))
    ensures NeedsAt(Inserted(b, r), x) == if x == r.Ref() then r.requirements else NeedsAt(b, x)
    ensures Has(Inserted(b, r), x) <==> x == r.Ref() || Has(b, x)
  {
    hide RouteRef.String, Validates, RouteKey;
    TypeStored(b, r);
    if x.typ == r.typ && RouteKey(x.domain, x.name) == RouteKey(r.domain, r.name) {
      RouteKeyInjective(x.domain, x.name, r);
    }
  }

  lemma UnstoreNeeds(b: Buckets, ref: RouteRef, x: RouteRef)
    requires WellBucketed(b) && Has(b, ref)
    ensures WellBucketed(Deleted(b, ref))
    ensures NeedsAt(Deleted(b, ref), x) == if x == ref then [] else NeedsAt(b, x)
    ensures Has(Deleted(b, ref), x) <==> x != ref && Has(b, x)
  {
    hide RouteRef.String, Validates, RouteKey;
    StoredUnderItsRef(b, ref);
    if x.typ == ref.typ && RouteKey(x.domain, x.name) == RouteKey(ref.domain, ref.name) {
      StoredUnderItsRef(b, x);
    }
  }

  /** Adding a route over nothing, or over a route that required nothing, keeps the indexes exact. */
  lemma AddKeepsIndexes(db: Db, r: Route)
    requires Consistent(db) && Validates(r) && NeedsAt(db.routes, r.Ref()) == []
    ensures r.typ in db.routes && Consistent(AddIndexes(db.(routes := Inserted(db.routes, r)), r))
  {
    hide RouteRef.String, Validates, RouteKey, WellBucketed, NeedsAt, Has;
    assert r.typ in db.routes by { TypeStored(db.routes, r); }
    var b, c := db.routes, Inserted(db.routes, r);
    forall x { StoreNeeds(b, r, x); }
    AddForwardFilled(db.forward, r.requirements, r.Ref());
    forall k, x ensures multiset(At(AddForward(db.forward, r.requirements, r.Ref()), k))[x] == Uses(c, x, k) {
      AddForwardCounts(db.forward, r.requirements, r.Ref(), k, x);
      assert multiset(At(db.forward, k))[x] == Uses(b, x, k);
    }
    AddReverseExact(db.reverse, b, c, r);
  }

  lemma AddReverseExact(reverse: RefIndex, b: Buckets, c: Buckets, r: Route)
    requires WellBucketed(b) && WellBucketed(c) && ReverseExact(reverse, b) && NeedsAt(b, r.Ref()) == []
    requires Validates(r)
    requires forall x :: NeedsAt(c, x) == if x == r.Ref() then r.requirements else NeedsAt(b, x)
    ensures ReverseExact(AddReverse(reverse, r), c)
  {
    hide RouteRef.String, Validates, RouteKey, WellBucketed;
    var after := AddReverse(reverse, r);
    forall x | NeedsAt(c, x) != [] ensures x.String() in after && after[x.String()] == NeedsAt(c, x) {
      if x != r.Ref() && r.requirements != [] && x.String() == r.Key() {
        StoredStringsDiffer(c, x, r.Ref());
      }
    }
    forall k | k in after ensures exists x :: NeedsAt(c, x) != [] && x.String() == k {
      if k == r.Key() && r.requirements != [] {
        assert NeedsAt(c, r.Ref()) != [];
      } else {
        var x :| NeedsAt(b, x) != [] && x.String() == k;
        assert NeedsAt(c, x) != [];
      }
    }
  }

  /** Clearing the indexes of a stored route leaves them exact for the other routes. */
  lemma RemoveKeepsIndexes(db: Db, ref: RouteRef)
    requires Consistent(db) && Has(db.routes, ref)
    ensures Consistent(RemoveIndexes(db, ref).(routes := Deleted(db.routes, ref)))
  {
    hide RouteRef.String, Validates, RouteKey, WellBucketed, NeedsAt;
    var b, c, key := db.routes, Deleted(db.routes, ref), ref.String();
    forall x { UnstoreNeeds(b, ref, x); }
    ReverseOfStored(db, ref);
    var deps := At(db.reverse, key);
    DropForwardFilled(db.forward, deps, key);
    forall k, x ensures multiset(At(DropForward(db.forward, deps, key), k))[x] == Uses(c, x, k) {
      DropForwardCounts(db.forward, deps, key, k, x);
      assert multiset(At(db.forward, k))[x] == Uses(b, x, k);
      if x.String() == key && x != ref { OtherNeedsNothing(b, ref, x); }
      assert k in Strings(deps) <==> multiset(Strings(deps))[k] > 0;
    }
    RemoveReverseExact(db.reverse, b, c, ref);
  }

  lemma OtherNeedsNothing(b: Buckets, ref: RouteRef, x: RouteRef)
    requires WellBucketed(b) && Has(b, ref) && x.String() == ref.String() && x != ref
    ensures NeedsAt(b, x) == []
  {
    hide RouteRef.String, WellBucketed;
    if Has(b, x) { StoredStringsDiffer(b, x, ref); }
  }

  lemma ReverseOfStored(db: Db, ref: RouteRef)
    requires Consistent(db) && Has(db.routes, ref)
    ensures At(db.reverse, ref.String()) == NeedsAt(db.routes, ref)
  {
    hide RouteRef.String, WellBucketed, ForwardExact;
    if ref.String() in db.reverse {
      var x :| NeedsAt(db.routes, x) != [] && x.String() == ref.String();
      if x != ref { OtherNeedsNothing(db.routes, ref, x); }
    }
  }

  lemma RemoveReverseExact(reverse: RefIndex, b: Buckets, c: Buckets, ref: RouteRef)
    requires WellBucketed(b) && ReverseExact(reverse, b) && Has(b, ref)
    requires forall x :: NeedsAt(c, x) == if x == ref then [] else NeedsAt(b, x)
    ensures ReverseExact(reverse - {ref.String()}, c)
  {
    hide RouteRef.String, WellBucketed, Has;
    forall x | NeedsAt(c, x) != [] ensures x.String() != ref.String() {
      if x.String() == ref.String() { OtherNeedsNothing(b, ref, x); }
    }
    forall k | k in reverse - {ref.String()} ensures exists x :: NeedsAt(c, x) != [] && x.String() == k {
      var x :| NeedsAt(b, x) != [] && x.String() == k;
      assert NeedsAt(c, x) != [];
    }
  }
}

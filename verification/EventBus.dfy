/** Filter subscriptions of the event bus. */
module EventBus {
  import opened Wrappers
  import opened Topics

  datatype Entry = Entry(id: nat, priority: int, handler: nat)

  type Handlers = map<string, seq<Entry>>

  function At(handlers: Handlers, topic: string): seq<Entry> {
    if topic in handlers then handlers[topic] else []
  }

  predicate ByPriority(s: seq<Entry>) {
    forall i, j :: 0 <= i < j < |s| ==> s[i].priority <= s[j].priority
  }

  predicate IdsDistinct(s: seq<Entry>) {
    forall i, j :: 0 <= i < j < |s| ==> s[i].id != s[j].id
  }

  method InsertionPoint(r: seq<Entry>, priority: int) returns (k: nat)
    ensures k <= |r| && (k > 0 ==> r[k - 1].priority <= priority)
    ensures forall m :: k <= m < |r| ==> r[m].priority > priority
  {
    k := |r|;
    while k > 0 && r[k - 1].priority > priority
      invariant 0 <= k <= |r|
      invariant forall m :: k <= m < |r| ==> r[m].priority > priority
    {
      k := k - 1;
    }
  }

  /** Sorting by priority; the order of equal priorities is left open. */
  method SortEntries(s: seq<Entry>) returns (r: seq<Entry>)
    ensures ByPriority(r) && multiset(r) == multiset(s)
    ensures forall i, j :: 0 <= i < j < |r| ==> r[i].priority <= r[j].priority
  {
    hide ByPriority;
    NoneByPriority();
    r := [];
    for i := 0 to |s|
      invariant ByPriority(r) && multiset(r) == multiset(s[..i])
    {
      var k := InsertionPoint(r, s[i].priority);
      InsertKeeps(r, k, s[i]);
      assert multiset(s[..i + 1]) == multiset(s[..i]) + multiset{s[i]} by { assert s[..i + 1] == s[..i] + [s[i]]; }
      r := r[..k] + [s[i]] + r[k..];
    }
    assert s[..|s|] == s;
    PriorityRises(r);
  }

  lemma PriorityRises(r: seq<Entry>)
    requires ByPriority(r)
    ensures forall i, j :: 0 <= i < j < |r| ==> r[i].priority <= r[j].priority
  {}

  lemma NoneByPriority()
    ensures ByPriority([])
  {}

  lemma InsertKeeps(r: seq<Entry>, k: nat, e: Entry)
    requires ByPriority(r) && k <= |r| && (k > 0 ==> r[k - 1].priority <= e.priority)
    requires forall m :: k <= m < |r| ==> r[m].priority > e.priority
    ensures ByPriority(r[..k] + [e] + r[k..]) && multiset(r[..k] + [e] + r[k..]) == multiset(r) + multiset{e}
  {
    InsertBag(r, k, e);
    var t := r[..k] + [e] + r[k..];
    hide ByPriority;
    forall i, j | 0 <= i < j < |t| ensures t[i].priority <= t[j].priority {
      InsertedPair(r, k, e, i, j);
    }
  }

  lemma InsertBag(r: seq<Entry>, k: nat, e: Entry)
    requires k <= |r|
    ensures multiset(r[..k] + [e] + r[k..]) == multiset(r) + multiset{e}
  {
    assert r == r[..k] + r[k..];
  }

  lemma InsertedPair(r: seq<Entry>, k: nat, e: Entry, i: nat, j: nat)
    requires ByPriority(r) && k <= |r| && (k > 0 ==> r[k - 1].priority <= e.priority)
    requires forall m :: k <= m < |r| ==> r[m].priority > e.priority
    requires i < j <= |r|
    ensures (r[..k] + [e] + r[k..])[i].priority <= (r[..k] + [e] + r[k..])[j].priority
  {
    Shifted(r, k, e);
    assert i < k ==> r[i].priority <= r[k - 1].priority;
  }

  lemma Shifted(r: seq<Entry>, k: nat, e: Entry)
    requires k <= |r|
    ensures var t := r[..k] + [e] + r[k..];
            |t| == |r| + 1 && forall i :: 0 <= i < |t| ==> t[i] == if i < k then r[i] else if i == k then e else r[i - 1]
  {}

  lemma DistinctByBag(a: seq<Entry>, b: seq<Entry>)
    requires multiset(a) == multiset(b) && IdsDistinct(a)
    ensures IdsDistinct(b) && forall e :: e in a <==> e in b
  {
    assert forall e :: e in a <==> e in multiset(a);
    assert forall e :: e in b <==> e in multiset(b);
    forall i, j | 0 <= i < j < |b| ensures b[i].id != b[j].id {
      if b[i] == b[j] {
        assert b == b[..j] + b[j..] && b[i] in b[..j] && b[j] in b[j..];
        assert multiset(b)[b[i]] >= 2;
        OnceOnly(a, b[i]);
      } else {
        assert b[i] in a && b[j] in a;
      }
    }
  }

  lemma {:induction false} OnceOnly(a: seq<Entry>, e: Entry)
    requires IdsDistinct(a)
    ensures multiset(a)[e] <= 1
  {
    if a != [] {
      var n := |a| - 1;
      assert a == a[..n] + [a[n]];
      OnceOnly(a[..n], e);
      if a[n] == e { assert e !in a[..n]; }
    }
  }

  /** The entries whose id differs from `id`, in order. */
  function RemoveId(s: seq<Entry>, id: nat): seq<Entry> {
    if s == [] then [] else
      var front := RemoveId(s[..|s| - 1], id);
      if s[|s| - 1].id == id then front else front + [s[|s| - 1]]
  }

  lemma {:induction false} RemoveIdMembers(s: seq<Entry>, id: nat)
    ensures forall e :: e in RemoveId(s, id) <==> e in s && e.id != id
  {
    if s != [] {
      var n := |s| - 1;
      RemoveIdMembers(s[..n], id);
      assert s == s[..n] + [s[n]];
    }
  }

  lemma CutKeeps(s: seq<Entry>, i: nat)
    requires i < |s| && ByPriority(s) && IdsDistinct(s)
    ensures ByPriority(s[..i] + s[i + 1..]) && IdsDistinct(s[..i] + s[i + 1..])
  {
    var t := s[..i] + s[i + 1..];
    assert forall j :: 0 <= j < |t| ==> t[j] == s[if j < i then j else j + 1];
  }

  lemma {:induction false} RemoveIdAbsent(s: seq<Entry>, id: nat)
    requires forall e :: e in s ==> e.id != id
    ensures RemoveId(s, id) == s
  {
    if s != [] {
      RemoveIdAbsent(s[..|s| - 1], id);
      assert s == s[..|s| - 1] + [s[|s| - 1]];
    }
  }

  lemma {:induction false} RemoveIdAt(s: seq<Entry>, i: nat)
    requires IdsDistinct(s) && i < |s|
    ensures RemoveId(s, s[i].id) == s[..i] + s[i + 1..]
    decreases |s|
  {
    var n := |s| - 1;
    if i == n {
      RemoveIdAbsent(s[..n], s[i].id);
      assert s[n + 1..] == [];
    } else {
      RemoveIdAt(s[..n], i);
      assert s[..n][..i] + s[..n][i + 1..] + [s[n]] == s[..i] + s[i + 1..];
    }
  }

  ghost predicate OneHome(handlers: Handlers) {
    forall t, u, e, f :: t in handlers && u in handlers && e in handlers[t] && f in handlers[u] ==> (e.id == f.id ==> t == u)
  }

  /** Lists are nonempty and in priority order; each id was issued once and is in one list. */
  ghost predicate Proper(handlers: Handlers, counter: nat) {
    && (forall t :: t in handlers ==> handlers[t] != [] && ByPriority(handlers[t]) && IdsDistinct(handlers[t]))
    && (forall t, e :: t in handlers && e in handlers[t] ==> 0 < e.id <= counter)
    && OneHome(handlers)
  }

  lemma AddKeepsHome(handlers: Handlers, counter: nat, topic: string, entry: Entry, sorted: seq<Entry>)
    requires OneHome(handlers) && entry.id == counter + 1
    requires forall t, e :: t in handlers && e in handlers[t] ==> e.id <= counter
    requires forall e :: e in sorted ==> e in At(handlers, topic) || e == entry
    ensures OneHome(handlers[topic := sorted])
  {
    var after := handlers[topic := sorted];
    forall t, u, e: Entry, f: Entry | t in after && u in after && e in after[t] && f in after[u] && e.id == f.id ensures t == u {}
  }

  lemma NewIdDistinct(former: seq<Entry>, entry: Entry)
    requires IdsDistinct(former) && forall e :: e in former ==> e.id < entry.id
    ensures IdsDistinct(former + [entry])
  {}

  lemma AddKeepsProper(handlers: Handlers, counter: nat, topic: string, entry: Entry, sorted: seq<Entry>)
    requires Proper(handlers, counter) && entry.id == counter + 1
    requires ByPriority(sorted) && multiset(sorted) == multiset(At(handlers, topic) + [entry])
    ensures Proper(handlers[topic := sorted], counter + 1)
  {
    hide ByPriority, IdsDistinct, OneHome;
    var former := At(handlers, topic);
    assert IdsDistinct(former) by { NoneDistinct(); }
    NewIdDistinct(former, entry);
    DistinctByBag(former + [entry], sorted);
    assert entry in former + [entry];
    AddKeepsHome(handlers, counter, topic, entry, sorted);
  }

  lemma NoneDistinct()
    ensures IdsDistinct([])
  {}

  lemma RemoveKeepsProper(handlers: Handlers, counter: nat, topic: string, i: nat)
    requires Proper(handlers, counter) && topic in handlers && i < |handlers[topic]|
    ensures var kept := handlers[topic][..i] + handlers[topic][i + 1..];
            Proper(if kept == [] then handlers - {topic} else handlers[topic := kept], counter)
  {
    var s := handlers[topic];
    CutKeeps(s, i);
    hide ByPriority, IdsDistinct;
    assert forall e :: e in s[..i] + s[i + 1..] ==> e in s;
  }

  class Bus {
    var filterHandlers: Handlers
    var counter: nat

    ghost predicate Valid()
      reads this
    {
      Proper(filterHandlers, counter)
    }

    constructor ()
      ensures Valid() && filterHandlers == map[] && counter == 0
    {
      filterHandlers, counter := map[], 0;
    }

    method SubscribeFilter(topic: string, priority: int, handler: Option<nat>) returns (id: Option<nat>)
      requires Valid()
      modifies this
      ensures Valid()
      ensures handler.None? ==> id.None? && filterHandlers == old(filterHandlers) && counter == old(counter)
      ensures handler.Some? ==>
                && counter == old(counter) + 1 && id == Some(counter)
                && filterHandlers.Keys == old(filterHandlers.Keys) + {topic}
                && (forall t :: t in filterHandlers && t != topic ==> filterHandlers[t] == old(filterHandlers)[t])
                && multiset(filterHandlers[topic])
                   == multiset(At(old(filterHandlers), topic)) + multiset{Entry(counter, priority, handler.value)}
    {
      hide Proper, ByPriority;
      if handler.None? { return None; }
      counter := counter + 1;
      var entry := Entry(counter, priority, handler.value);
      var former := At(filterHandlers, topic);
      var sorted := SortEntries(former + [entry]);
      AddKeepsProper(filterHandlers, counter - 1, topic, entry, sorted);
      filterHandlers := filterHandlers[topic := sorted];
      return Some(counter);
    }

    /** Removes one subscription; an unknown id changes nothing. */
    method Unsubscribe(id: Option<nat>)
      requires Valid()
      modifies this
      ensures Valid() && counter == old(counter)
      ensures forall t, e :: e in At(filterHandlers, t) <==> e in At(old(filterHandlers), t) && (id.Some? ==> e.id != id.value)
      ensures forall t :: At(filterHandlers, t) ==
                if id.Some? then RemoveId(At(old(filterHandlers), t), id.value) else At(old(filterHandlers), t)
    {
      hide Proper, ByPriority, IdsDistinct, OneHome, RemoveId;
      if id.None? { return; }
      var rest := filterHandlers.Keys;
      while rest != {}
        invariant rest <= filterHandlers.Keys
        invariant filterHandlers == old(filterHandlers) && counter == old(counter)
        invariant forall t, e :: t in filterHandlers && t !in rest && e in filterHandlers[t] ==> e.id != id.value
        decreases rest
      {
        var topic :| topic in rest;
        rest := rest - {topic};
        var handlers := filterHandlers[topic];
        var i := 0;
        while i < |handlers|
          invariant 0 <= i <= |handlers|
          invariant filterHandlers == old(filterHandlers) && counter == old(counter)
          invariant forall e :: e in handlers[..i] ==> e.id != id.value
        {
          if handlers[i].id == id.value {
            RemoveKeepsProper(filterHandlers, counter, topic, i);
            RemoveOne(filterHandlers, counter, topic, i);
            var kept := handlers[..i] + handlers[i + 1..];
            if |kept| == 0 {
              filterHandlers := filterHandlers - {topic};
            } else {
              filterHandlers := filterHandlers[topic := kept];
            }
            return;
          }
          assert handlers[..i + 1] == handlers[..i] + [handlers[i]];
          i := i + 1;
        }
        assert handlers[..i] == handlers;
      }
      forall t
        ensures RemoveId(At(filterHandlers, t), id.value) == At(filterHandlers, t)
        ensures forall e :: e in At(filterHandlers, t) ==> e.id != id.value
      {
        RemoveIdAbsent(At(filterHandlers, t), id.value);
      }
    }

    /** The subscriptions whose pattern matches `topic`, each once, in non-decreasing priority. */
    method GetFilterHandlers(topic: string) returns (result: seq<Entry>)
      requires Valid()
      ensures forall i, j :: 0 <= i < j < |result| ==> result[i].priority <= result[j].priority && result[i].id != result[j].id
      ensures forall e :: e in result <==>
                exists p :: p in filterHandlers && e in filterHandlers[p] && MatchTopic(topic, p)
    {
      hide MatchTopic, ByPriority;
      result := [];
      if topic in filterHandlers {
        result := result + filterHandlers[topic];
      }
      MatchTopicIff(topic, topic);
      var rest := filterHandlers.Keys;
      ghost var done: set<string> := {topic};
      assert Collected(filterHandlers, topic, done, result);
      while rest != {}
        invariant rest <= filterHandlers.Keys && filterHandlers.Keys <= done + rest && done - {topic} !! rest
        invariant topic in done && Collected(filterHandlers, topic, done, result)
        decreases rest
      {
        var pattern :| pattern in rest;
        rest := rest - {pattern};
        if pattern == topic { continue; }
        if MatchTopic(topic, pattern) {
          CollectMore(filterHandlers, counter, topic, done, result, pattern);
          result := result + filterHandlers[pattern];
        } else {
          CollectNone(filterHandlers, topic, done, result, pattern);
        }
        done := done + {pattern};
      }
      ghost var unsorted := result;
      result := SortEntries(result);
      DistinctByBag(unsorted, result);
    }
  }

  /** Cutting one entry out of its list removes its id everywhere. */
  lemma RemoveOne(handlers: Handlers, counter: nat, topic: string, i: nat)
    requires Proper(handlers, counter) && topic in handlers && i < |handlers[topic]|
    ensures var kept, id := handlers[topic][..i] + handlers[topic][i + 1..], handlers[topic][i].id;
            var after := if kept == [] then handlers - {topic} else handlers[topic := kept];
            forall t :: At(after, t) == RemoveId(At(handlers, t), id) && forall e :: e in At(after, t) <==> e in At(handlers, t) && e.id != id
  {
    forall t { RemoveIdMembers(At(handlers, t), handlers[topic][i].id); }
    hide ByPriority, RemoveId;
    RemoveIdAt(handlers[topic], i);
    forall t | t != topic ensures RemoveId(At(handlers, t), handlers[topic][i].id) == At(handlers, t) {
      RemoveIdAbsent(At(handlers, t), handlers[topic][i].id);
    }
  }

  /** `result` holds the entries of the matching patterns in `done`, each once. */
  ghost predicate Collected(handlers: Handlers, topic: string, done: set<string>, result: seq<Entry>) {
    && IdsDistinct(result)
    && forall e :: e in result <==> exists p :: p in done && p in handlers && e in handlers[p] && MatchTopic(topic, p)
  }

  lemma CollectMore(handlers: Handlers, counter: nat, topic: string, done: set<string>, result: seq<Entry>, pattern: string)
    requires Collected(handlers, topic, done, result) && pattern in handlers && pattern !in done && MatchTopic(topic, pattern)
    requires Proper(handlers, counter)
    ensures Collected(handlers, topic, done + {pattern}, result + handlers[pattern])
  {
    hide MatchTopic;
    var more := handlers[pattern];
    var all := result + more;
    forall i, j | 0 <= i < j < |all| ensures all[i].id != all[j].id {
      if i < |result| <= j {
        assert all[i] in result && all[j] in more;
        var p :| p in done && p in handlers && all[i] in handlers[p] && MatchTopic(topic, p);
      }
    }
    assert forall e :: e in all <==> e in result || e in more;
  }

  lemma CollectNone(handlers: Handlers, topic: string, done: set<string>, result: seq<Entry>, pattern: string)
    requires Collected(handlers, topic, done, result) && !MatchTopic(topic, pattern)
    ensures Collected(handlers, topic, done + {pattern}, result)
  {
    hide MatchTopic;
  }
}

/** The order `sort.Strings` sorts by, and the one ascending listing of a finite set of keys. */
module Lexical {

  function Elems<T>(s: seq<T>): set<T> {
    set x | x in s
  }

  predicate Distinct<T(==)>(s: seq<T>) {
    forall i, j :: 0 <= i < j < |s| ==> s[i] != s[j]
  }

  lemma DistinctSize<T>(s: seq<T>)
    requires Distinct(s)
    ensures |Elems(s)| == |s|
  {
    if s != [] {
      var front, last := s[..|s| - 1], s[|s| - 1];
      DistinctSize(front);
      assert Elems(s) == Elems(front) + {last};
    }
  }

  lemma SizeDistinct<T>(s: seq<T>)
    requires |Elems(s)| == |s|
    ensures Distinct(s)
  {
    if s != [] {
      var front, last := s[..|s| - 1], s[|s| - 1];
      ElemsSize(front);
      assert Elems(s) == Elems(front) + {last};
      SizeDistinct(front);
    }
  }

  lemma ElemsSize<T>(s: seq<T>)
    ensures |Elems(s)| <= |s|
  {
    if s != [] {
      var front, last := s[..|s| - 1], s[|s| - 1];
      ElemsSize(front);
      assert Elems(s) == Elems(front) + {last};
    }
  }

  lemma SubsetSize<T>(a: set<T>, b: set<T>)
    requires a <= b
    ensures |a| <= |b|
    ensures |a| == |b| ==> a == b
  {
    assert b == a + (b - a);
  }

  /** Where `x` first occurs. */
  function First<T(==)>(s: seq<T>, x: T): (i: nat)
    requires x in s
    ensures i < |s| && s[i] == x && x !in s[..i]
  {
    if s[0] == x then 0 else
      var i := First(s[1..], x);
      assert s[..i + 1] == [s[0]] + s[1..][..i];
      i + 1
  }

  lemma FirstAt<T>(s: seq<T>, i: nat)
    requires i < |s| && s[i] !in s[..i]
    ensures First(s, s[i]) == i
  {
    var j := First(s, s[i]);
    assert forall m :: 0 <= m < j ==> s[..j][m] == s[m];
    assert forall m :: 0 <= m < i ==> s[..i][m] == s[m];
  }

  lemma FirstInPrefix<T>(s: seq<T>, x: T, k: nat)
    requires x in s && k <= |s|
    ensures x in s[..k] <==> First(s, x) < k
  {
    var i := First(s, x);
    if x in s[..k] {
      var j :| 0 <= j < k && s[..k][j] == x;
      assert forall m :: 0 <= m < i ==> s[..i][m] == s[m];
    }
    if i < k { assert s[..k][i] == x; }
  }

  lemma FirstAppend<T>(s: seq<T>, x: T, y: T)
    requires y in s + [x]
    ensures First(s + [x], y) == if y in s then First(s, y) else |s|
  {
    var t, i := s + [x], if y in s then First(s, y) else |s|;
    assert t[i] == y && t[..i] == s[..i];
    FirstAt(t, i);
  }

  // ----- lexicographic order on strings -----

  predicate Leq(a: string, b: string) {
    a == [] || (b != [] && (a[0] < b[0] || (a[0] == b[0] && Leq(a[1..], b[1..]))))
  }

  predicate Less(a: string, b: string) {
    a != b && Leq(a, b)
  }

  lemma LeqTotal(a: string, b: string)
    ensures Leq(a, b) || Leq(b, a)
  {}

  lemma {:induction false} LeqAntisymmetric(a: string, b: string)
    requires Leq(a, b) && Leq(b, a)
    ensures a == b
  {
    if a != [] && b != [] {
      LeqAntisymmetric(a[1..], b[1..]);
      assert a == [a[0]] + a[1..];
      assert b == [b[0]] + b[1..];
    }
  }

  lemma {:induction false} LeqTransitive(a: string, b: string, c: string)
    requires Leq(a, b) && Leq(b, c)
    ensures Leq(a, c)
  {
    if a != [] && a[0] == b[0] == c[0] {
      LeqTransitive(a[1..], b[1..], c[1..]);
    }
  }

  /** In byte order `a` comes before `b`: it ends where `b` goes on, or has the smaller character where they first differ. */
  ghost predicate Earlier(a: string, b: string) {
    a < b || exists i :: 0 <= i < |a| && i < |b| && a[..i] == b[..i] && a[i] < b[i]
  }

  lemma {:induction false} LeqIff(a: string, b: string)
    ensures Leq(a, b) <==> a <= b || exists i :: 0 <= i < |a| && i < |b| && a[..i] == b[..i] && a[i] < b[i]
  {
    if a != [] && b != [] {
      if a[0] == b[0] {
        LeqIff(a[1..], b[1..]);
        assert a == [a[0]] + a[1..] && b == [a[0]] + b[1..];
        assert a <= b <==> a[1..] <= b[1..];
        if i :| 0 <= i < |a| && i < |b| && a[..i] == b[..i] && a[i] < b[i] {
          assert a[1..][..i - 1] == a[..i][1..] && b[1..][..i - 1] == b[..i][1..];
          assert a[1..][i - 1] < b[1..][i - 1];
        }
        if i :| 0 <= i < |a| - 1 && i < |b| - 1 && a[1..][..i] == b[1..][..i] && a[1..][i] < b[1..][i] {
          assert a[..i + 1] == [a[0]] + a[1..][..i] && b[..i + 1] == [b[0]] + b[1..][..i];
          assert a[i + 1] < b[i + 1];
        }
      } else {
        if a[0] < b[0] { assert a[..0] == b[..0]; }
        forall i | 0 < i < |a| && i < |b| ensures a[..i] != b[..i] { assert a[..i][0] != b[..i][0]; }
      }
    }
  }

  lemma LessIff(a: string, b: string)
    ensures Less(a, b) <==> Earlier(a, b)
  {
    LeqIff(a, b);
    forall i | 0 <= i < |a| && i < |b| && a[i] < b[i] ensures a != b {}
  }

  lemma {:induction false} LeqUnderPrefix(p: string, a: string, b: string)
    ensures Leq(p + a, p + b) == Leq(a, b)
  {
    if p == [] {
      assert p + a == a && p + b == b;
    } else {
      LeqUnderPrefix(p[1..], a, b);
      assert (p + a)[1..] == p[1..] + a;
      assert (p + b)[1..] == p[1..] + b;
    }
  }

  // ----- ascending listings -----

  predicate Ascending(s: seq<string>) {
    forall i, j :: 0 <= i < j < |s| ==> Less(s[i], s[j])
  }

  /** Ascending is upwards in byte order. */
  lemma AscendingIff(s: seq<string>)
    ensures Ascending(s) <==> forall i, j :: 0 <= i < j < |s| ==> Earlier(s[i], s[j])
  {
    hide Less, Earlier;
    forall i, j | 0 <= i < j < |s| ensures Less(s[i], s[j]) <==> Earlier(s[i], s[j]) { LessIff(s[i], s[j]); }
  }

  lemma AscendingDistinct(s: seq<string>)
    requires Ascending(s)
    ensures Distinct(s)
  {}

  ghost predicate IsMinimum(m: string, s: set<string>) {
    m in s && forall x :: x in s ==> Leq(m, x)
  }

  lemma {:induction false} MinimumExists(s: set<string>)
    requires s != {}
    ensures exists m :: IsMinimum(m, s)
    decreases s
  {
    var m :| m in s;
    LeqTotal(m, m);
    if s == {m} {
      assert IsMinimum(m, s);
    } else {
      MinimumExists(s - {m});
      var n :| IsMinimum(n, s - {m});
      LeqTotal(m, n);
      if Leq(m, n) {
        forall x | x in s ensures Leq(m, x) {
          if x != m { LeqTransitive(m, n, x); }
        }
        assert IsMinimum(m, s);
      } else {
        assert IsMinimum(n, s);
      }
    }
  }

  lemma AscendingCons(m: string, rest: seq<string>)
    requires Ascending(rest) && forall x :: x in Elems(rest) ==> Less(m, x)
    ensures Ascending([m] + rest) && Elems([m] + rest) == {m} + Elems(rest)
  {
    var r := [m] + rest;
    forall i, j | 0 <= i < j < |r| ensures Less(r[i], r[j]) {
      assert r[j] == rest[j - 1];
      if i == 0 { assert rest[j - 1] in Elems(rest); } else { assert r[i] == rest[i - 1]; }
    }
  }

  /** The elements of a set in ascending order. */
  ghost function SortedOf(s: set<string>): seq<string> {
    if s == {} then [] else
      MinimumExists(s);
      var m :| IsMinimum(m, s);
      [m] + SortedOf(s - {m})
  }

  lemma {:induction false} SortedOfExact(s: set<string>)
    ensures Ascending(SortedOf(s)) && Elems(SortedOf(s)) == s && |SortedOf(s)| == |s|
    ensures Distinct(SortedOf(s)) && forall x :: x in SortedOf(s) <==> x in s
  {
    hide Leq, Ascending, Distinct;
    if s == {} {
      NothingAscends();
    } else {
      MinimumExists(s);
      var m :| IsMinimum(m, s) && SortedOf(s) == [m] + SortedOf(s - {m});
      SortedOfExact(s - {m});
      AscendingCons(m, SortedOf(s - {m}));
    }
    AscendingDistinct(SortedOf(s));
    assert forall x :: x in SortedOf(s) <==> x in Elems(SortedOf(s));
  }

  lemma NothingAscends()
    ensures Ascending([])
  {}

  /** The only ascending listing of `s`. */
  lemma SortedOfUnique(s: set<string>, r: seq<string>)
    requires Ascending(r) && Elems(r) == s
    ensures r == SortedOf(s)
  {
    SortedOfExact(s);
    AscendingUnique(r, SortedOf(s));
  }

  lemma {:induction false} AscendingUnique(a: seq<string>, b: seq<string>)
    requires Ascending(a) && Ascending(b) && Elems(a) == Elems(b)
    ensures a == b
  {
    assert b != [] ==> b[0] in Elems(b);
    if a != [] {
      hide Leq;
      assert a[0] in Elems(a);
      assert b != [] && b[0] in Elems(b);
      assert a[0] in b && b[0] in a;
      LeqTotal(a[0], a[0]);
      LeqTotal(b[0], b[0]);
      assert Leq(b[0], a[0]) && Leq(a[0], b[0]);
      LeqAntisymmetric(a[0], b[0]);
      TailElems(a);
      TailElems(b);
      AscendingUnique(a[1..], b[1..]);
      assert a == [a[0]] + a[1..] && b == [b[0]] + b[1..];
    }
  }

  lemma TailElems(a: seq<string>)
    requires a != [] && Ascending(a)
    ensures Elems(a[1..]) == Elems(a) - {a[0]}
  {
    forall x | x in Elems(a) - {a[0]} ensures x in a[1..] {
      var i :| 0 <= i < |a| && a[i] == x;
      assert a[1..][i - 1] == x;
    }
  }

  /** `s` without the entries equal to `x`. */
  function Without<T(==, !new)>(s: seq<T>, x: T): (r: seq<T>)
    ensures x !in r
    ensures forall y :: y in r <==> y in s && y != x
  {
    if s == [] then [] else (if s[0] == x then [] else [s[0]]) + Without(s[1..], x)
  }

  lemma ConcatAssociative<T>(a: seq<T>, b: seq<T>, c: seq<T>)
    ensures a + (b + c) == (a + b) + c
  {}

  lemma AppendNew<T>(s: seq<T>, x: T)
    requires Distinct(s) && x !in Elems(s)
    ensures Distinct(s + [x]) && Elems(s + [x]) == Elems(s) + {x}
  {}

  lemma {:induction false} WithoutAppend<T(!new)>(a: seq<T>, b: seq<T>, x: T)
    ensures Without(a + b, x) == Without(a, x) + Without(b, x)
  {
    if a == [] {
      assert a + b == b;
    } else {
      var first := if a[0] == x then [] else [a[0]];
      assert (a + b)[1..] == a[1..] + b;
      WithoutAppend(a[1..], b, x);
      ConcatAssociative(first, Without(a[1..], x), Without(b, x));
    }
  }

  lemma {:induction false} WithoutAbsent<T(!new)>(s: seq<T>, x: T)
    requires x !in s
    ensures Without(s, x) == s
  {
    if s != [] {
      WithoutAbsent(s[1..], x);
      assert s == [s[0]] + s[1..];
    }
  }

  lemma {:induction false} WithoutAscending(s: seq<string>, x: string)
    requires Ascending(s)
    ensures Ascending(Without(s, x))
  {
    if s != [] {
      var t := Without(s[1..], x);
      WithoutAscending(s[1..], x);
      forall y | y in t ensures Less(s[0], y) {
        var i :| 0 <= i < |s[1..]| && s[1..][i] == y;
        assert s[i + 1] == y;
      }
    }
  }

  lemma SortedOfMinus(s: set<string>, x: string)
    ensures SortedOf(s - {x}) == Without(SortedOf(s), x)
  {
    hide Ascending, Distinct, SortedOf;
    var t := SortedOf(s);
    SortedOfExact(s);
    WithoutAscending(t, x);
    assert Elems(Without(t, x)) == Elems(t) - {x};
    SortedOfUnique(s - {x}, Without(t, x));
  }

  // ----- prefixing -----

  function Prefixed(p: string, s: seq<string>): (r: seq<string>)
    ensures |r| == |s| && forall i :: 0 <= i < |s| ==> r[i] == p + s[i]
  {
    seq(|s|, i requires 0 <= i < |s| => p + s[i])
  }

  function PrefixedSet(p: string, s: set<string>): set<string> {
    set x | x in s :: p + x
  }

  lemma PrefixInjective(p: string, a: string, b: string)
    requires p + a == p + b
    ensures a == b
  {
    assert a == (p + a)[|p|..];
    assert b == (p + b)[|p|..];
  }

  lemma PrefixedElems(p: string, s: seq<string>)
    ensures Elems(Prefixed(p, s)) == PrefixedSet(p, Elems(s))
  {
    var t := Prefixed(p, s);
    forall x | x in PrefixedSet(p, Elems(s)) ensures x in t {
      var y :| y in Elems(s) && x == p + y;
      var i :| 0 <= i < |s| && s[i] == y;
      assert t[i] == x;
    }
  }

  lemma SortedOfPrefixed(p: string, s: set<string>)
    ensures SortedOf(PrefixedSet(p, s)) == Prefixed(p, SortedOf(s))
  {
    hide SortedOf, Distinct, Leq;
    var t := SortedOf(s);
    var u := Prefixed(p, t);
    SortedOfExact(s);
    forall i, j | 0 <= i < j < |u| ensures Less(u[i], u[j]) {
      assert Less(t[i], t[j]);
      LeqUnderPrefix(p, t[i], t[j]);
      if u[i] == u[j] { PrefixInjective(p, t[i], t[j]); }
    }
    PrefixedElems(p, t);
    SortedOfUnique(PrefixedSet(p, s), u);
  }

  // ----- sorting a slice -----

  predicate Sorted(s: seq<string>) {
    forall i, j :: 0 <= i < j < |s| ==> Leq(s[i], s[j])
  }

  function Insert(x: string, s: seq<string>): seq<string> {
    if s == [] || Leq(x, s[0]) then [x] + s else [s[0]] + Insert(x, s[1..])
  }

  lemma {:induction false} InsertSorted(x: string, s: seq<string>)
    requires Sorted(s)
    ensures Sorted(Insert(x, s)) && multiset(Insert(x, s)) == multiset{x} + multiset(s)
  {
    hide Leq;
    if s == [] {
    } else if Leq(x, s[0]) {
      LeqThrough(x, s);
    } else {
      var t := Insert(x, s[1..]);
      InsertSorted(x, s[1..]);
      LeqTotal(x, s[0]);
      LeqTotal(s[0], s[0]);
      assert s == [s[0]] + s[1..];
      forall y | y in multiset(t) ensures Leq(s[0], y) {
        assert y == x || y in s[1..];
      }
    }
  }

  lemma LeqThrough(x: string, s: seq<string>)
    requires s != [] && Sorted(s) && Leq(x, s[0])
    ensures forall i :: 0 <= i < |s| ==> Leq(x, s[i])
  {
    forall i | 0 < i < |s| ensures Leq(x, s[i]) {
      LeqTransitive(x, s[0], s[i]);
    }
  }

  /** What `sort.Strings` leaves in the slice it is given. */
  function Sort(s: seq<string>): (r: seq<string>)
    ensures Sorted(r) && multiset(r) == multiset(s)
  {
    if s == [] then [] else
      assert s == [s[0]] + s[1..];
      InsertSorted(s[0], Sort(s[1..]));
      Insert(s[0], Sort(s[1..]))
  }

  lemma DistinctMultiset<T>(a: seq<T>)
    ensures Distinct(a) <==> forall x :: x in a ==> multiset(a)[x] == 1
  {
    if a != [] {
      var front, last := a[..|a| - 1], a[|a| - 1];
      DistinctMultiset(front);
      assert a == front + [last];
      assert multiset(a)[last] >= 1;
      if Distinct(a) {
        assert last !in front;
        forall x | x in a ensures multiset(a)[x] == 1 {}
      } else if Distinct(front) {
        assert last in front;
        assert multiset(front)[last] >= 1;
        assert multiset(a)[last] >= 2;
      } else {
        var x :| x in front && multiset(front)[x] != 1;
        assert x in a;
        assert multiset(front)[x] >= 1;
        assert multiset(a)[x] >= multiset(front)[x] >= 2;
      }
    }
  }

  /** The listing of a set runs upwards. */
  lemma SortedOfUp(s: set<string>)
    ensures forall i, j :: 0 <= i < j < |SortedOf(s)| ==> Earlier(SortedOf(s)[i], SortedOf(s)[j])
  {
    hide Earlier, Ascending;
    SortedOfExact(s);
    AscendingIff(SortedOf(s));
  }

  /** Sorting a slice of distinct keys gives the one ascending listing, whatever order they came in. */
  lemma SortDistinct(s: seq<string>)
    requires Distinct(s)
    ensures Sort(s) == SortedOf(Elems(s))
    ensures Elems(Sort(s)) == Elems(s) && forall i, j :: 0 <= i < j < |Sort(s)| ==> Earlier(Sort(s)[i], Sort(s)[j])
  {
    hide Earlier, Leq;
    var t := Sort(s);
    forall x ensures x in t <==> x in s {
      assert x in t <==> x in multiset(t);
      assert x in s <==> x in multiset(s);
    }
    assert Elems(t) == Elems(s);
    DistinctMultiset(s);
    DistinctMultiset(t);
    assert Distinct(t);
    SortedOfUnique(Elems(s), t);
    SortedOfUp(Elems(s));
  }
}

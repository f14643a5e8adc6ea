/** The fixed-window request limiter. */
module RateLimiter {

  /** A key's counter and the end of the window it counts; times are whole numbers of the clock's smallest unit. */
  datatype Entry = Entry(count: int, windowEnd: int)

  /** `Time.Truncate`: rounds down to a multiple of `d`; returns `t` when `d` is not positive. */
  function Truncate(t: int, d: int): int {
    if d <= 0 then t else t - t % d
  }

  /** A key's entry after a call at `now`. */
  function Counted(entries: map<string, Entry>, key: string, now: int, window: int): Entry {
    var windowEnd := Truncate(now, window) + window;
    var e := if key in entries then entries[key] else Entry(0, windowEnd);
    if now >= e.windowEnd then Entry(1, windowEnd) else e.(count := e.count + 1)
  }

  class Limiter {
    var entries: map<string, Entry>
    const limit: int
    const window: int

    constructor (limit: int, window: int)
      ensures this.limit == limit && this.window == window && entries == map[]
    {
      this.limit, this.window, entries := limit, window, map[];
    }

    method Allow(key: string, now: int) returns (allowed: bool, remaining: int, reset: int)
      modifies this
      ensures entries == old(entries)[key := Counted(old(entries), key, now, window)]
      ensures allowed <==> entries[key].count <= limit
      ensures remaining == if allowed then limit - entries[key].count else 0
      ensures reset == entries[key].windowEnd
    {
      var windowEnd := Truncate(now, window) + window;
      var entry: Entry;
      if key in entries {
        entry := entries[key];
      } else {
        entry := Entry(0, windowEnd);
        entries := entries[key := entry];
      }
      if now > entry.windowEnd || now == entry.windowEnd {
        entry := Entry(0, Truncate(now, window) + window);
      }
      entry := entry.(count := entry.count + 1);
      entries := entries[key := entry];
      remaining := limit - entry.count;
      if remaining < 0 {
        remaining := 0;
      }
      if entry.count > limit {
        return false, 0, entry.windowEnd;
      }
      return true, remaining, entry.windowEnd;
    }
  }

  // ----- histories -----

  datatype Call = Call(key: string, time: int)

  function After(calls: seq<Call>, window: int): map<string, Entry> {
    if calls == [] then map[] else
      var n := |calls| - 1;
      var before := After(calls[..n], window);
      before[calls[n].key := Counted(before, calls[n].key, calls[n].time, window)]
  }

  /** The answer to the last call. */
  predicate Granted(calls: seq<Call>, limit: int, window: int)
    requires calls != []
  {
    var n := |calls| - 1;
    Counted(After(calls[..n], window), calls[n].key, calls[n].time, window).count <= limit
  }

  predicate NonDecreasing(calls: seq<Call>) {
    forall i, j :: 0 <= i < j < |calls| ==> calls[i].time <= calls[j].time
  }

  /** The number of the aligned window that holds `t`. */
  function Window(t: int, window: int): int
    requires window > 0
  {
    t / window
  }

  /** How many of the calls are for `key` in aligned window `w`. */
  function CallsIn(calls: seq<Call>, key: string, w: int, window: int): nat
    requires window > 0
  {
    if calls == [] then 0 else
      var n := |calls| - 1;
      CallsIn(calls[..n], key, w, window) + if calls[n].key == key && Window(calls[n].time, window) == w then 1 else 0
  }

  lemma SameWindow(t: int, q: int, window: int)
    requires window > 0 && q * window <= t < q * window + window
    ensures Window(t, window) == q
  {
    var p := Window(t, window);
    if p < q {
      assert (p + 1) * window == p * window + window;
      Monotone(p + 1, q, window);
    } else if p > q {
      assert (q + 1) * window == q * window + window;
      Monotone(q + 1, p, window);
    }
  }

  lemma Monotone(a: int, b: int, window: int)
    requires window > 0 && a <= b
    ensures a * window <= b * window
  {
    assert b * window - a * window == (b - a) * window;
  }

  /** A key that has called holds the count for the window of its last call; others hold nothing. */
  ghost predicate Tracks(calls: seq<Call>, key: string, window: int)
    requires window > 0
  {
    var entries := After(calls, window);
    && (key !in entries ==> forall w :: CallsIn(calls, key, w, window) == 0)
    && (key in entries ==> exists i :: 0 <= i < |calls| && LastCall(calls, key, window, i))
  }

  ghost predicate LastCall(calls: seq<Call>, key: string, window: int, i: nat)
    requires window > 0 && i < |calls|
  {
    var entries, w := After(calls, window), Window(calls[i].time, window);
    && key in entries && calls[i].key == key
    && entries[key] == Entry(CallsIn(calls, key, w, window), w * window + window)
    && forall v :: v > w ==> CallsIn(calls, key, v, window) == 0
  }

  lemma WindowBounds(t: int, window: int)
    requires window > 0
    ensures Window(t, window) * window <= t < Window(t, window) * window + window
    ensures Truncate(t, window) == Window(t, window) * window
  {}

  /** From the start of window `v` on, `t` is in it until it ends, and in a later one afterwards. */
  lemma LaterWindow(t: int, v: int, window: int)
    requires window > 0 && v * window <= t
    ensures t < v * window + window ==> Window(t, window) == v
    ensures t >= v * window + window ==> Window(t, window) > v
  {
    var w := Window(t, window);
    WindowBounds(t, window);
    if t < v * window + window {
      SameWindow(t, v, window);
    } else if w <= v {
      Monotone(w, v, window);
    }
  }

  lemma CountedExact(calls: seq<Call>, call: Call, window: int)
    requires window > 0 && NonDecreasing(calls + [call]) && Tracks(calls, call.key, window)
    ensures var w := Window(call.time, window);
            Counted(After(calls, window), call.key, call.time, window)
            == Entry(CallsIn(calls, call.key, w, window) + 1, w * window + window)
    ensures forall v :: v > Window(call.time, window) ==> CallsIn(calls, call.key, v, window) == 0
  {
    hide After, Window, Truncate, CallsIn;
    var w := Window(call.time, window);
    WindowBounds(call.time, window);
    if call.key in After(calls, window) {
      var i: nat :| i < |calls| && LastCall(calls, call.key, window, i);
      var all := calls + [call];
      assert all[i] == calls[i] && all[|calls|] == call;
      WindowBounds(calls[i].time, window);
      LaterWindow(call.time, Window(calls[i].time, window), window);
    }
  }

  lemma {:induction false} HistoryTracks(calls: seq<Call>, key: string, window: int)
    requires window > 0 && NonDecreasing(calls)
    ensures Tracks(calls, key, window)
  {
    hide Truncate, Counted;
    if calls != [] {
      var n := |calls| - 1;
      var front, call := calls[..n], calls[n];
      HistoryTracks(front, key, window);
      assert front + [call] == calls;
      if call.key == key {
        CountedExact(front, call, window);
        var w := Window(call.time, window);
        assert After(calls, window)[key] == Counted(After(front, window), key, call.time, window);
        assert CallsIn(calls, key, w, window) == CallsIn(front, key, w, window) + 1;
        forall v | v > w ensures CallsIn(calls, key, v, window) == 0 {
          assert CallsIn(front, key, v, window) == 0;
        }
        assert LastCall(calls, key, window, n);
      } else {
        forall w ensures CallsIn(calls, key, w, window) == CallsIn(front, key, w, window) {}
        if key in After(front, window) {
          var i: nat :| i < |front| && LastCall(front, key, window, i);
          assert LastCall(calls, key, window, i);
        }
      }
    }
  }

  /** A call is granted exactly when fewer than `limit` earlier calls of its key fell in the same aligned window. */
  lemma GrantedIff(calls: seq<Call>, call: Call, limit: int, window: int)
    requires window > 0 && NonDecreasing(calls + [call])
    ensures Granted(calls + [call], limit, window)
            <==> CallsIn(calls, call.key, Window(call.time, window), window) < limit
  {
    hide After, Counted;
    var all := calls + [call];
    assert all[..|calls|] == calls;
    forall i, j | 0 <= i < j < |calls| ensures calls[i].time <= calls[j].time { assert all[i] == calls[i] && all[j] == calls[j]; }
    HistoryTracks(calls, call.key, window);
    CountedExact(calls, call, window);
  }

  // ----- grants -----

  function GrantsIn(calls: seq<Call>, key: string, w: int, limit: int, window: int): nat
    requires window > 0
  {
    if calls == [] then 0 else
      var n := |calls| - 1;
      GrantsIn(calls[..n], key, w, limit, window)
      + if calls[n].key == key && Window(calls[n].time, window) == w && Granted(calls, limit, window) then 1 else 0
  }

  /** The grants of a key whose time lies in `[from, from + window)`. */
  function GrantsWithin(calls: seq<Call>, key: string, from: int, limit: int, window: int): nat
    requires window > 0
  {
    if calls == [] then 0 else
      var n := |calls| - 1;
      GrantsWithin(calls[..n], key, from, limit, window)
      + if calls[n].key == key && from <= calls[n].time < from + window && Granted(calls, limit, window) then 1 else 0
  }

  /** Each aligned window grants every call up to the limit and none after. */
  lemma {:induction false} GrantsPerWindow(calls: seq<Call>, key: string, w: int, limit: nat, window: int)
    requires window > 0 && NonDecreasing(calls)
    ensures GrantsIn(calls, key, w, limit, window)
            == if CallsIn(calls, key, w, window) < limit then CallsIn(calls, key, w, window) else limit
  {
    hide Granted, Window;
    if calls != [] {
      var n := |calls| - 1;
      assert calls == calls[..n] + [calls[n]];
      GrantsPerWindow(calls[..n], key, w, limit, window);
      GrantedIff(calls[..n], calls[n], limit, window);
    }
  }

  lemma {:induction false} WithinTwoWindows(calls: seq<Call>, key: string, from: int, limit: nat, window: int)
    requires window > 0
    ensures GrantsWithin(calls, key, from, limit, window)
            <= GrantsIn(calls, key, Window(from, window), limit, window) + GrantsIn(calls, key, Window(from, window) + 1, limit, window)
  {
    hide Granted;
    if calls != [] {
      var n := |calls| - 1;
      WithinTwoWindows(calls[..n], key, from, limit, window);
      var t, q := calls[n].time, Window(from, window);
      if from <= t < from + window {
        assert (q + 1) * window == q * window + window;
        if t < q * window + window { SameWindow(t, q, window); } else { SameWindow(t, q + 1, window); }
      }
    }
  }

  /** Any interval one window long contains at most twice the limit of grants per key. */
  lemma AtMostTwiceTheLimit(calls: seq<Call>, key: string, from: int, limit: nat, window: int)
    requires window > 0 && NonDecreasing(calls)
    ensures GrantsWithin(calls, key, from, limit, window) <= 2 * limit
  {
    WithinTwoWindows(calls, key, from, limit, window);
    GrantsPerWindow(calls, key, Window(from, window), limit, window);
    GrantsPerWindow(calls, key, Window(from, window) + 1, limit, window);
  }

  // ----- the bound is met -----

  /** `n` calls at one instant. */
  function Burst(key: string, t: int, n: nat): (calls: seq<Call>)
    ensures |calls| == n && forall c :: c in calls ==> c == Call(key, t)
  {
    seq(n, _ => Call(key, t))
  }

  lemma {:induction false} BurstCalls(front: seq<Call>, key: string, t: int, n: nat, w: int, window: int)
    requires window > 0
    ensures CallsIn(front + Burst(key, t, n), key, w, window)
            == CallsIn(front, key, w, window) + if Window(t, window) == w then n else 0
  {
    hide Window;
    if n == 0 {
      assert front + Burst(key, t, 0) == front;
    } else {
      var all := front + Burst(key, t, n);
      assert all[..|all| - 1] == front + Burst(key, t, n - 1) && all[|all| - 1] == Call(key, t);
      BurstCalls(front, key, t, n - 1, w, window);
    }
  }

  lemma WindowEdge(window: int)
    requires window > 1
    ensures Window(window - 1, window) == 0 && Window(window, window) == 1
  {
    SameWindow(window - 1, 0, window);
    SameWindow(window, 1, window);
  }

  lemma {:induction false} GrantsAcrossEdge(calls: seq<Call>, key: string, limit: int, window: int)
    requires window > 1 && forall c :: c in calls ==> c == Call(key, window - 1) || c == Call(key, window)
    ensures GrantsWithin(calls, key, window - 1, limit, window)
            == GrantsIn(calls, key, 0, limit, window) + GrantsIn(calls, key, 1, limit, window)
  {
    hide Granted, Window;
    if calls != [] {
      var n := |calls| - 1;
      assert calls[n] in calls && forall c :: c in calls[..n] ==> c in calls;
      WindowEdge(window);
      GrantsAcrossEdge(calls[..n], key, limit, window);
    }
  }

  /** For every limit and every window longer than one instant, bursts on both sides of a boundary are granted in full. */
  lemma TwiceTheLimitHappens(key: string, limit: nat, window: int)
    requires window > 1
    ensures var calls := Burst(key, window - 1, limit) + Burst(key, window, limit);
            NonDecreasing(calls) && GrantsWithin(calls, key, window - 1, limit, window) == 2 * limit
  {
    hide Granted, GrantsIn, GrantsWithin, CallsIn, Window;
    var early, late := Burst(key, window - 1, limit), Burst(key, window, limit);
    var calls := early + late;
    WindowEdge(window);
    NoCalls(key, window);
    assert [] + early == early;
    BurstCalls([], key, window - 1, limit, 0, window);
    BurstCalls([], key, window - 1, limit, 1, window);
    BurstCalls(early, key, window, limit, 0, window);
    BurstCalls(early, key, window, limit, 1, window);
    GrantsPerWindow(calls, key, 0, limit, window);
    GrantsPerWindow(calls, key, 1, limit, window);
    GrantsAcrossEdge(calls, key, limit, window);
  }

  lemma NoCalls(key: string, window: int)
    requires window > 0
    ensures forall w :: CallsIn([], key, w, window) == 0
  {}

  /** When a window is a single instant, no interval of its length holds more than the limit. */
  lemma OneInstantNeverMore(calls: seq<Call>, key: string, from: int, limit: nat)
    requires NonDecreasing(calls)
    ensures GrantsWithin(calls, key, from, limit, 1) <= limit
  {
    WithinOneInstant(calls, key, from, limit);
    GrantsPerWindow(calls, key, from, limit, 1);
  }

  lemma {:induction false} WithinOneInstant(calls: seq<Call>, key: string, from: int, limit: int)
    ensures GrantsWithin(calls, key, from, limit, 1) == GrantsIn(calls, key, from, limit, 1)
  {
    hide Granted;
    if calls != [] { WithinOneInstant(calls[..|calls| - 1], key, from, limit); }
  }

  // ----- without a window -----

  lemma {:induction false} WindowsOver(calls: seq<Call>, window: int)
    requires window <= 0 && NonDecreasing(calls) && calls != []
    ensures forall key :: key in After(calls, window) ==> After(calls, window)[key].windowEnd <= calls[|calls| - 1].time
  {
    var n := |calls| - 1;
    if n > 0 {
      WindowsOver(calls[..n], window);
      assert calls[..n][n - 1] == calls[n - 1];
    }
  }

  /** When the window is not positive every call opens a new one, so that all are granted or none. */
  lemma NoWindowCountsAnew(calls: seq<Call>, call: Call, limit: int, window: int)
    requires window <= 0 && NonDecreasing(calls + [call])
    ensures Granted(calls + [call], limit, window) <==> limit >= 1
  {
    var all := calls + [call];
    assert all[..|calls|] == calls;
    if calls != [] {
      forall i, j | 0 <= i < j < |calls| ensures calls[i].time <= calls[j].time { assert all[i] == calls[i] && all[j] == calls[j]; }
      WindowsOver(calls, window);
      assert all[|calls| - 1] == calls[|calls| - 1] && all[|calls|] == call;
    }
  }
}

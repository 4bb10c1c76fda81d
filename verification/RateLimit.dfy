/**
 * The fixed-window rate limiter: visitor records are created lazily and counted in place, a full table
 * is cleaned before an insertion, and a background cleaner runs at arbitrary times.
 */
module RateLimit {
  import opened Base

  datatype Limits = Limits(limit: int, window: int, maxVisitors: int)

  datatype Window = Window(count: int, resetAt: int)

  type Table = map<string, Window>

  function Cleaned(table: Table, now: int): Table {
    map key | key in table && now <= table[key].resetAt :: table[key]
  }

  /** Key `key` has no window that is still open at `now`. */
  predicate StartsWindow(table: Table, key: string, now: int) {
    key !in table || now > table[key].resetAt
  }

  /** One call of allow: the table afterwards and the decision. */
  function Allow(l: Limits, table: Table, key: string, now: int): (Table, bool) {
    if StartsWindow(table, key, now) then
      var room := if |table| >= l.maxVisitors then Cleaned(table, now) else table;
      (room[key := Window(1, now + l.window)], true)
    else
      var count := table[key].count + 1;
      (table[key := table[key].(count := count)], count <= l.limit)
  }

  class VisitorInfo {
    var count: int
    var resetAt: int

    constructor (count: int, resetAt: int)
      ensures this.count == count && this.resetAt == resetAt
    {
      this.count, this.resetAt := count, resetAt;
    }
  }

  class RateLimiter {
    const limits: Limits
    var visitors: map<string, VisitorInfo>

    /** No two keys share a visitor record. */
    ghost predicate Valid()
      reads this
    {
      forall a, b :: a in visitors && b in visitors && a != b ==> visitors[a] != visitors[b]
    }

    ghost function View(): Table
      reads this, visitors.Values
    {
      map key | key in visitors :: Window(visitors[key].count, visitors[key].resetAt)
    }

    constructor (limits: Limits)
      ensures this.limits == limits && Valid() && View() == map[]
    {
      this.limits := limits;
      visitors := map[];
    }

    method CleanupLocked(now: int)
      requires Valid()
      modifies this
      ensures Valid() && visitors.Values <= old(visitors.Values)
      ensures View() == Cleaned(old(View()), now)
    {
      var todo := visitors.Keys;
      while todo != {}
        invariant todo <= old(visitors).Keys
        invariant visitors.Keys == set key | key in old(visitors) && (key in todo || now <= old(visitors)[key].resetAt)
        invariant forall key :: key in visitors ==> visitors[key] == old(visitors)[key]
        decreases todo
      {
        var key :| key in todo;
        if now > visitors[key].resetAt {
          visitors := visitors - {key};
        }
        todo := todo - {key};
      }
      assert View() == Cleaned(old(View()), now);
    }

    // The table size is the number of visitor records.
    lemma ViewSize()
      ensures |View()| == |visitors|
    {
      assert View().Keys == visitors.Keys;
      SameSize(visitors, View());
    }

    method StartWindow(key: string, now: int)
      requires Valid()
      modifies this
      ensures Valid() && fresh(visitors.Values - old(visitors.Values))
      ensures View() == (if |old(View())| >= limits.maxVisitors then Cleaned(old(View()), now) else old(View()))
              [key := Window(1, now + limits.window)]
    {
      hide Cleaned;
      ViewSize();
      if |visitors| >= limits.maxVisitors {
        CleanupLocked(now);
      }
      Insert(key, now + limits.window);
    }

    method Insert(key: string, resetAt: int)
      requires Valid()
      modifies this
      ensures Valid() && fresh(visitors.Values - old(visitors.Values))
      ensures View() == old(View())[key := Window(1, resetAt)]
    {
      var v := new VisitorInfo(1, resetAt);
      visitors := visitors[key := v];
      assert View() == old(View())[key := Window(1, resetAt)];
    }

    /** allow. */
    method Allowed(key: string, now: int) returns (ok: bool)
      requires Valid()
      modifies this, visitors.Values
      ensures Valid()
      ensures (View(), ok) == Allow(limits, old(View()), key, now)
    {
      hide Cleaned;
      if key !in visitors || now > visitors[key].resetAt {
        StartWindow(key, now);
        return true;
      }
      var v := visitors[key];
      v.count := v.count + 1;
      assert View() == old(View())[key := Window(v.count, v.resetAt)];
      return v.count <= limits.limit;
    }

    /** One round of the background cleaner. */
    method Cleanup(now: int)
      requires Valid()
      modifies this
      ensures Valid() && View() == Cleaned(old(View()), now)
    {
      CleanupLocked(now);
    }
  }

  lemma SameSize<A, B>(a: map<string, A>, b: map<string, B>)
    requires a.Keys == b.Keys
    ensures |a| == |b|
  {
    assert |a| == |a.Keys| && |b| == |b.Keys|;
  }

  // ------------------------------------------------------------------- call traces

  datatype Call = Hit(key: string, at: int) | Cleanup(at: int)

  /** Calls happen in the order of a clock that never goes back. */
  predicate InOrder(calls: seq<Call>, from: int) {
    calls == [] || (from <= calls[0].at && InOrder(calls[1..], calls[0].at))
  }

  function Step(l: Limits, table: Table, call: Call): Table {
    match call
    case Hit(key, at) => Allow(l, table, key, at).0
    case Cleanup(at) => Cleaned(table, at)
  }

  /** The decisions taken for one key along a trace of calls for any keys and of cleanups. */
  function Decisions(l: Limits, table: Table, calls: seq<Call>, key: string): seq<bool>
    decreases |calls|
  {
    if calls == [] then []
    else
      var rest := Decisions(l, Step(l, table, calls[0]), calls[1..], key);
      if calls[0].Hit? && calls[0].key == key then [Allow(l, table, key, calls[0].at).1] + rest else rest
  }

  /** The times at which a key calls. */
  function Times(calls: seq<Call>, key: string): seq<int> {
    if calls == [] then []
    else if calls[0].Hit? && calls[0].key == key then [calls[0].at] + Times(calls[1..], key)
    else Times(calls[1..], key)
  }

  /** A window counter for a single key, which is never cleaned. */
  function Tick(l: Limits, counter: Option<Window>, now: int): (Option<Window>, bool) {
    if counter.None? || now > counter.value.resetAt then (Some(Window(1, now + l.window)), true)
    else (Some(counter.value.(count := counter.value.count + 1)), counter.value.count + 1 <= l.limit)
  }

  function CounterRun(l: Limits, counter: Option<Window>, times: seq<int>): seq<bool>
    decreases |times|
  {
    if times == [] then []
    else [Tick(l, counter, times[0]).1] + CounterRun(l, Tick(l, counter, times[0]).0, times[1..])
  }

  /** The counter stands for what the table knows of the key; a forgotten window is one that has ended. */
  predicate Represents(counter: Option<Window>, table: Table, key: string, now: int) {
    if key in table then counter == Some(table[key])
    else counter.None? || counter.value.resetAt < now
  }

  lemma StepRepresents(l: Limits, counter: Option<Window>, table: Table, key: string, call: Call, now: int)
    requires Represents(counter, table, key, now) && now <= call.at
    ensures var mine := call.Hit? && call.key == key;
      && (mine ==> Allow(l, table, key, call.at).1 == Tick(l, counter, call.at).1)
      && Represents(if mine then Tick(l, counter, call.at).0 else counter, Step(l, table, call), key, call.at)
  {}

  lemma {:induction false} DecisionsRefine(
      l: Limits, counter: Option<Window>, table: Table, calls: seq<Call>, key: string, now: int)
    requires InOrder(calls, now) && Represents(counter, table, key, now)
    ensures Decisions(l, table, calls, key) == CounterRun(l, counter, Times(calls, key))
    decreases |calls|
  {
    hide Allow, Tick, Represents, Step;
    if calls != [] {
      var call := calls[0];
      StepRepresents(l, counter, table, key, call, now);
      if call.Hit? && call.key == key {
        DecisionsRefine(l, Tick(l, counter, call.at).0, Step(l, table, call), calls[1..], key, call.at);
        assert Times(calls, key)[1..] == Times(calls[1..], key);
      } else {
        DecisionsRefine(l, counter, Step(l, table, call), calls[1..], key, call.at);
      }
    }
  }

  /**
   * On any trace, with overflow and background cleanups anywhere, the decisions for a key are those of a
   * counter that sees that key's calls alone.
   */
  lemma NonInterference(l: Limits, calls: seq<Call>, key: string, start: int)
    requires InOrder(calls, start)
    ensures Decisions(l, map[], calls, key) == CounterRun(l, None, Times(calls, key))
  {
    DecisionsRefine(l, None, map[], calls, key, start);
  }

  /** The times at which a key's calls start a new window in the table. */
  function WindowStarts(l: Limits, table: Table, calls: seq<Call>, key: string): seq<int>
    decreases |calls|
  {
    if calls == [] then []
    else
      var rest := WindowStarts(l, Step(l, table, calls[0]), calls[1..], key);
      if calls[0].Hit? && calls[0].key == key && StartsWindow(table, key, calls[0].at)
        then [calls[0].at] + rest else rest
  }

  ghost predicate Apart(starts: seq<int>, window: int) {
    forall i :: 0 < i < |starts| ==> starts[i] > starts[i - 1] + window
  }

  lemma ApartWithFirst(first: int, rest: seq<int>, window: int)
    requires Apart(rest, window) && (rest != [] ==> rest[0] > first + window)
    ensures Apart([first] + rest, window)
  {}

  lemma {:induction false} StartsApart(
      l: Limits, counter: Option<Window>, table: Table, calls: seq<Call>, key: string, now: int)
    requires InOrder(calls, now) && Represents(counter, table, key, now)
    ensures var starts := WindowStarts(l, table, calls, key);
      && (starts != [] && counter.Some? ==> starts[0] > counter.value.resetAt)
      && Apart(starts, l.window)
    decreases |calls|
  {
    hide Allow, Represents, Step, StartsWindow, Apart;
    if calls == [] {
      assert Apart([], l.window) by { NoneApart(l.window); }
    } else {
      var call := calls[0];
      var mine := call.Hit? && call.key == key;
      StepRepresents(l, counter, table, key, call, now);
      StartsAgree(l, counter, table, key, call.at, now);
      StartsApart(l, if mine then Tick(l, counter, call.at).0 else counter,
                  Step(l, table, call), calls[1..], key, call.at);
      if mine && StartsWindow(table, key, call.at) {
        ApartWithFirst(call.at, WindowStarts(l, Step(l, table, call), calls[1..], key), l.window);
      }
    }
  }

  lemma NoneApart(window: int)
    ensures Apart([], window)
  {}

  lemma StartsAgree(l: Limits, counter: Option<Window>, table: Table, key: string, at: int, now: int)
    requires Represents(counter, table, key, now) && now <= at
    ensures StartsWindow(table, key, at) <==> counter.None? || at > counter.value.resetAt
  {}

  /** Windows of a key start strictly more than a window apart, even when cleanups forget them in between. */
  lemma WindowsApart(l: Limits, calls: seq<Call>, key: string, start: int, i: nat)
    requires InOrder(calls, start) && 0 < i < |WindowStarts(l, map[], calls, key)|
    ensures WindowStarts(l, map[], calls, key)[i] > WindowStarts(l, map[], calls, key)[i - 1] + l.window
  {
    StartsApart(l, None, map[], calls, key, start);
  }

  // -------------------------------------------------------------------- rate bound

  predicate Sorted(times: seq<int>, from: int) {
    times == [] || (from <= times[0] && Sorted(times[1..], times[0]))
  }

  /** How many calls in the closed interval from `a` to `b` were allowed. */
  function AllowedIn(times: seq<int>, decisions: seq<bool>, a: int, b: int): nat
    requires |times| == |decisions|
  {
    if times == [] then 0
    else (if decisions[0] && a <= times[0] <= b then 1 else 0) + AllowedIn(times[1..], decisions[1..], a, b)
  }

  lemma {:induction false} CounterRunLength(l: Limits, counter: Option<Window>, times: seq<int>)
    ensures |CounterRun(l, counter, times)| == |times|
    decreases |times|
  {
    if times != [] { CounterRunLength(l, Tick(l, counter, times[0]).0, times[1..]); }
  }

  function Allowance(l: Limits, counter: Option<Window>, times: seq<int>, a: int, b: int): nat {
    CounterRunLength(l, counter, times);
    AllowedIn(times, CounterRun(l, counter, times), a, b)
  }

  lemma AllowanceStep(l: Limits, counter: Option<Window>, times: seq<int>, a: int, b: int)
    requires times != []
    ensures Allowance(l, counter, times, a, b)
      == (if Tick(l, counter, times[0]).1 && a <= times[0] <= b then 1 else 0)
         + Allowance(l, Tick(l, counter, times[0]).0, times[1..], a, b)
  {
    var ds := CounterRun(l, counter, times);
    CounterRunLength(l, counter, times);
    assert ds[1..] == CounterRun(l, Tick(l, counter, times[0]).0, times[1..]);
  }

  function PerWindow(l: Limits): nat {
    if l.limit > 1 then l.limit else 1
  }

  lemma {:induction false} NothingAfter(l: Limits, counter: Option<Window>, times: seq<int>, from: int, a: int, b: int)
    requires Sorted(times, from) && from > b
    ensures Allowance(l, counter, times, a, b) == 0
    decreases |times|
  {
    if times != [] {
      AllowanceStep(l, counter, times, a, b);
      NothingAfter(l, Tick(l, counter, times[0]).0, times[1..], times[0], a, b);
    }
  }

  /**
   * From an open window on, at most `j` more windows can start by `b` when `b` is no later than `j` windows
   * after the open one ends: each starts strictly after the one before it has ended.
   */
  lemma {:induction false} WindowsBound(l: Limits, w: Window, times: seq<int>, from: int, a: int, b: int, j: nat)
    requires l.window > 0 && Sorted(times, from) && w.count >= 1 && b <= w.resetAt + j * l.window
    ensures Allowance(l, Some(w), times, a, b)
      <= (if l.limit > w.count then l.limit - w.count else 0) + j * PerWindow(l)
    decreases |times|
  {
    hide Allowance;
    if times == [] {
      NothingAfter(l, Some(w), times, b + 1, a, b);
    } else if times[0] > b {
      AllowanceStep(l, Some(w), times, a, b);
      NothingAfter(l, Tick(l, Some(w), times[0]).0, times[1..], times[0], a, b);
    } else {
      AllowanceStep(l, Some(w), times, a, b);
      var next := Tick(l, Some(w), times[0]).0.value;
      if times[0] <= w.resetAt {
        WindowsBound(l, next, times[1..], times[0], a, b, j);
      } else {
        assert j >= 1;
        assert (j - 1) * l.window == j * l.window - l.window;
        WindowsBound(l, next, times[1..], times[0], a, b, j - 1);
        assert (j - 1) * PerWindow(l) == j * PerWindow(l) - PerWindow(l);
      }
    }
  }

  /** The most calls of one key that a closed interval of `k` windows' length can hold. */
  function MostIn(l: Limits, k: nat): nat {
    if k == 0 then PerWindow(l) else (k + 1) * PerWindow(l) - 1
  }

  /** What a window that is open at the start of the interval leaves, or the windows that start inside it. */
  lemma {:induction false} IntervalBound(
      l: Limits, counter: Option<Window>, times: seq<int>, from: int, a: int, k: nat)
    requires l.window > 0 && Sorted(times, from) && (counter.Some? ==> counter.value.count >= 1)
    ensures Allowance(l, counter, times, a, a + k * l.window) <= MostIn(l, k)
    decreases |times|
  {
    hide Allowance;
    var b := a + k * l.window;
    assert (k + 1) * PerWindow(l) == k * PerWindow(l) + PerWindow(l);
    if times == [] {
      NothingAfter(l, counter, times, b + 1, a, b);
    } else if times[0] < a {
      AllowanceStep(l, counter, times, a, b);
      IntervalBound(l, Tick(l, counter, times[0]).0, times[1..], times[0], a, k);
    } else if counter.Some? && times[0] <= counter.value.resetAt {
      WindowsBound(l, counter.value, times, times[0], a, b, k);
    } else {
      AllowanceStep(l, counter, times, a, b);
      var j := if k == 0 then 0 else k - 1;
      assert k > 0 ==> j * l.window == k * l.window - l.window;
      assert k > 0 ==> j * PerWindow(l) == k * PerWindow(l) - PerWindow(l);
      WindowsBound(l, Tick(l, counter, times[0]).0.value, times[1..], times[0], a, b, j);
    }
  }

  lemma {:induction false} TimesSorted(calls: seq<Call>, key: string, from: int)
    requires InOrder(calls, from)
    ensures Sorted(Times(calls, key), from)
    decreases |calls|
  {
    if calls != [] {
      TimesSorted(calls[1..], key, calls[0].at);
      if calls[0].Hit? && calls[0].key == key {
        assert Times(calls, key)[1..] == Times(calls[1..], key);
      } else {
        SortedEarlier(Times(calls, key), calls[0].at, from);
      }
    }
  }

  lemma SortedEarlier(times: seq<int>, from: int, earlier: int)
    requires Sorted(times, from) && earlier <= from
    ensures Sorted(times, earlier)
  {}

  /**
   * A closed interval of `k` windows' length holds at most (k + 1) * max(1, limit) - 1 allowed calls of one
   * key, and a single instant at most max(1, limit).
   */
  lemma RateBound(l: Limits, calls: seq<Call>, key: string, start: int, a: int, k: nat)
    requires l.window > 0 && InOrder(calls, start)
    ensures |Times(calls, key)| == |Decisions(l, map[], calls, key)|
    ensures AllowedIn(Times(calls, key), Decisions(l, map[], calls, key), a, a + k * l.window) <= MostIn(l, k)
  {
    NonInterference(l, calls, key, start);
    CounterRunLength(l, None, Times(calls, key));
    TimesSorted(calls, key, start);
    IntervalBound(l, None, Times(calls, key), start, a, k);
  }

  // -------------------------------------------------------- the bound is attained

  function Repeat(t: int, n: nat): seq<int> {
    if n == 0 then [] else [t] + Repeat(t, n - 1)
  }

  /** `k` full bursts, each starting the first instant after the window of the one before has ended. */
  function Bursts(l: Limits, t: int, k: nat): seq<int>
    decreases k
  {
    if k == 0 then [] else Repeat(t, PerWindow(l)) + Bursts(l, t + l.window + 1, k - 1)
  }

  function HitsAt(times: seq<int>, key: string): seq<Call> {
    if times == [] then [] else [Hit(key, times[0])] + HitsAt(times[1..], key)
  }

  lemma {:induction false} HitsAtTimes(times: seq<int>, key: string, from: int)
    requires Sorted(times, from)
    ensures Times(HitsAt(times, key), key) == times && InOrder(HitsAt(times, key), from)
  {
    if times != [] {
      HitsAtTimes(times[1..], key, times[0]);
      assert HitsAt(times, key)[1..] == HitsAt(times[1..], key);
    }
  }

  lemma {:induction false} RepeatSorted(t: int, n: nat, rest: seq<int>, from: int)
    requires from <= t && Sorted(rest, t)
    ensures Sorted(Repeat(t, n) + rest, from)
  {
    if n == 0 {
      SortedEarlier(rest, t, from);
      assert Repeat(t, 0) + rest == rest;
    } else {
      RepeatSorted(t, n - 1, rest, t);
      assert (Repeat(t, n) + rest)[1..] == Repeat(t, n - 1) + rest;
    }
  }

  lemma {:induction false} BurstsSorted(l: Limits, t: int, k: nat, from: int)
    requires l.window > 0 && from <= t
    ensures Sorted(Bursts(l, t, k), from)
    decreases k
  {
    if k > 0 {
      BurstsSorted(l, t + l.window + 1, k - 1, t);
      RepeatSorted(t, PerWindow(l), Bursts(l, t + l.window + 1, k - 1), from);
    }
  }

  lemma {:induction false} InWindow(l: Limits, w: Window, t: int, n: nat, rest: seq<int>, a: int, b: int)
    requires a <= t <= b && t <= w.resetAt && (n == 0 || w.count + n <= l.limit)
    ensures Allowance(l, Some(w), Repeat(t, n) + rest, a, b)
         == n + Allowance(l, Some(w.(count := w.count + n)), rest, a, b)
    decreases n
  {
    hide Allowance;
    if n == 0 {
      assert Repeat(t, 0) + rest == rest;
    } else {
      AllowanceStep(l, Some(w), Repeat(t, n) + rest, a, b);
      assert (Repeat(t, n) + rest)[1..] == Repeat(t, n - 1) + rest;
      InWindow(l, w.(count := w.count + 1), t, n - 1, rest, a, b);
    }
  }

  lemma FullBurst(l: Limits, counter: Option<Window>, t: int, rest: seq<int>, a: int, b: int)
    requires a <= t <= b && l.window > 0 && (counter.None? || t > counter.value.resetAt)
    ensures Allowance(l, counter, Repeat(t, PerWindow(l)) + rest, a, b)
         == PerWindow(l) + Allowance(l, Some(Window(PerWindow(l), t + l.window)), rest, a, b)
  {
    hide Allowance;
    var n := PerWindow(l);
    AllowanceStep(l, counter, Repeat(t, n) + rest, a, b);
    assert (Repeat(t, n) + rest)[1..] == Repeat(t, n - 1) + rest;
    InWindow(l, Window(1, t + l.window), t, n - 1, rest, a, b);
  }

  lemma {:induction false} BurstsAllowed(l: Limits, counter: Option<Window>, t: int, k: nat, a: int, b: int)
    requires l.window > 0 && (counter.None? || t > counter.value.resetAt)
    requires a <= t && (k > 0 ==> t + (k - 1) * (l.window + 1) <= b)
    ensures Allowance(l, counter, Bursts(l, t, k), a, b) == k * PerWindow(l)
    decreases k
  {
    hide Allowance;
    if k == 0 {
      NothingAfter(l, counter, [], b + 1, a, b);
    } else {
      var next := t + l.window + 1;
      assert 0 <= (k - 1) * (l.window + 1);
      assert (k - 1) * (l.window + 1) == (k - 2) * (l.window + 1) + (l.window + 1);
      FullBurst(l, counter, t, Bursts(l, next, k - 1), a, b);
      BurstsAllowed(l, Some(Window(PerWindow(l), t + l.window)), next, k - 1, a, b);
      assert k * PerWindow(l) == (k - 1) * PerWindow(l) + PerWindow(l);
    }
  }

  /**
   * One call opens a window that ends at `a`; its remaining calls come at `a`, and `k` full bursts follow.
   * For `k` = 0 a single burst at `a` is enough.
   */
  function Busiest(l: Limits, a: int, k: nat): seq<int> {
    if k == 0 then Repeat(a, PerWindow(l))
    else [a - l.window] + (Repeat(a, PerWindow(l) - 1) + Bursts(l, a + 1, k))
  }

  lemma BusiestAllowed(l: Limits, a: int, k: nat)
    requires 0 < l.window && k <= l.window
    ensures Allowance(l, None, Busiest(l, a, k), a, a + k * l.window) == MostIn(l, k)
  {
    hide Allowance;
    var b, n := a + k * l.window, PerWindow(l);
    if k == 0 {
      FullBurst(l, None, a, [], a, b);
      NothingAfter(l, Some(Window(n, a + l.window)), [], b + 1, a, b);
      assert Repeat(a, n) + [] == Repeat(a, n);
    } else {
      assert 0 <= k * l.window;
      assert (k - 1) * (l.window + 1) == k * l.window + k - l.window - 1;
      AllowanceStep(l, None, Busiest(l, a, k), a, b);
      assert Busiest(l, a, k)[1..] == Repeat(a, n - 1) + Bursts(l, a + 1, k);
      InWindow(l, Window(1, a), a, n - 1, Bursts(l, a + 1, k), a, b);
      BurstsAllowed(l, Some(Window(n, a)), a + 1, k, a, b);
    }
  }

  /** No smaller bound holds: for every limit, and every `k` up to the window, some trace attains it. */
  lemma RateBoundAttained(l: Limits, key: string, a: int, k: nat) returns (calls: seq<Call>)
    requires 0 < l.window && k <= l.window
    ensures InOrder(calls, a - l.window) && |Times(calls, key)| == |Decisions(l, map[], calls, key)|
    ensures AllowedIn(Times(calls, key), Decisions(l, map[], calls, key), a, a + k * l.window) == MostIn(l, k)
  {
    var times := Busiest(l, a, k);
    calls := HitsAt(times, key);
    BurstsSorted(l, a + 1, k, a);
    if k == 0 {
      RepeatSorted(a, PerWindow(l), [], a - l.window);
      assert Repeat(a, PerWindow(l)) + [] == times;
    } else {
      RepeatSorted(a, PerWindow(l) - 1, Bursts(l, a + 1, k), a - l.window);
      assert times[1..] == Repeat(a, PerWindow(l) - 1) + Bursts(l, a + 1, k);
    }
    HitsAtTimes(times, key, a - l.window);
    NonInterference(l, calls, key, a - l.window);
    CounterRunLength(l, None, times);
    BusiestAllowed(l, a, k);
  }

  // ------------------------------------------------------------------- table size

  lemma SetSize<T>(a: set<T>, b: set<T>)
    requires a <= b
    ensures |a| <= |b|
  {
    assert b == a + (b - a);
  }

  /**
   * After an insertion the table holds at most the larger of maxVisitors and the number of keys whose
   * window is open at that instant.
   */
  lemma InsertionBound(l: Limits, table: Table, key: string, now: int)
    requires l.window >= 0 && StartsWindow(table, key, now)
    ensures var after := Allow(l, table, key, now).0;
      |after| <= (if |Cleaned(after, now)| > l.maxVisitors then |Cleaned(after, now)| else l.maxVisitors)
  {
    var after := Allow(l, table, key, now).0;
    if |table| >= l.maxVisitors {
      assert Cleaned(after, now) == after;
    } else {
      assert after.Keys == table.Keys + {key};
      SetSize(after.Keys, table.Keys + {key});
      assert |after| == |after.Keys| && |table| == |table.Keys|;
    }
  }

  /**
   * When the table is full, an insertion keeps it within maxVisitors exactly when fewer than that many other
   * keys are open.
   */
  lemma FullTableBoundIff(l: Limits, table: Table, key: string, now: int)
    requires |table| >= l.maxVisitors && StartsWindow(table, key, now)
    ensures |Allow(l, table, key, now).0| <= l.maxVisitors <==> |Cleaned(table, now)| < l.maxVisitors
  {
    var rest := Cleaned(table, now);
    assert key !in rest;
    assert rest[key := Window(1, now + l.window)].Keys == rest.Keys + {key};
    assert |rest| == |rest.Keys|;
    assert |rest[key := Window(1, now + l.window)]| == |rest.Keys + {key}|;
  }

  function TableAfter(l: Limits, table: Table, calls: seq<Call>): Table {
    if calls == [] then table
    else Step(l, TableAfter(l, table, calls[..|calls| - 1]), calls[|calls| - 1])
  }

  /** The `i`-th of a family of distinct keys. */
  function VisitorKey(i: nat): string {
    if i == 0 then "" else VisitorKey(i - 1) + "x"
  }

  lemma {:induction false} VisitorKeyLength(i: nat)
    ensures |VisitorKey(i)| == i
  {
    if i > 0 { VisitorKeyLength(i - 1); }
  }

  /** `n` different visitors calling at the same instant. */
  function Crowd(n: nat, at: int): seq<Call> {
    if n == 0 then [] else Crowd(n - 1, at) + [Hit(VisitorKey(n - 1), at)]
  }

  lemma NewVisitor(l: Limits, table: Table, key: string, at: int)
    requires key !in table && forall k :: k in table ==> at <= table[k].resetAt
    ensures Allow(l, table, key, at).0 == table[key := Window(1, at + l.window)]
    ensures |Allow(l, table, key, at).0| == |table| + 1
  {
    assert Cleaned(table, at) == table;
    assert table[key := Window(1, at + l.window)].Keys == table.Keys + {key};
  }

  lemma {:induction false} CrowdTable(l: Limits, n: nat, at: int)
    requires l.window >= 0
    ensures var table := TableAfter(l, map[], Crowd(n, at));
      && |table| == n
      && (forall key :: key in table ==> |key| < n && at <= table[key].resetAt)
  {
    hide Allow, VisitorKey;
    if n > 0 {
      CrowdTable(l, n - 1, at);
      VisitorKeyLength(n - 1);
      var calls := Crowd(n, at);
      assert calls[..|calls| - 1] == Crowd(n - 1, at);
      NewVisitor(l, TableAfter(l, map[], Crowd(n - 1, at)), VisitorKey(n - 1), at);
    }
  }

  lemma {:induction false} CrowdInOrder(n: nat, at: int)
    ensures forall call :: call in Crowd(n, at) ==> call.at == at
  {
    if n > 0 { CrowdInOrder(n - 1, at); }
  }

  lemma {:induction false} SameInstantInOrder(calls: seq<Call>, at: int)
    requires forall call :: call in calls ==> call.at == at
    ensures InOrder(calls, at)
  {
    if calls != [] { SameInstantInOrder(calls[1..], at); }
  }

  /** Whatever maxVisitors is set to, one more distinct visitor than that in one window exceeds it. */
  lemma MaxVisitorsIsNoBound(l: Limits, at: int) returns (calls: seq<Call>)
    requires l.maxVisitors >= 0 && l.window >= 0
    ensures InOrder(calls, at) && |calls| == l.maxVisitors + 1
    ensures |TableAfter(l, map[], calls)| > l.maxVisitors
  {
    calls := Crowd(l.maxVisitors + 1, at);
    CrowdTable(l, l.maxVisitors + 1, at);
    CrowdLength(l.maxVisitors + 1, at);
    CrowdInOrder(l.maxVisitors + 1, at);
    SameInstantInOrder(calls, at);
  }

  lemma {:induction false} CrowdLength(n: nat, at: int)
    ensures |Crowd(n, at)| == n
  {
    if n > 0 { CrowdLength(n - 1, at); }
  }
}

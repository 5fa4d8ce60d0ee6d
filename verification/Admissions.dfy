/** How many admissions an interval of time can hold, for logs kept in time order. */
module Admissions {
  import opened Tally

  predicate Sorted(times: seq<int>) {
    forall i, j :: 0 <= i < j < |times| ==> times[i] <= times[j]
  }

  function Within(inside: int -> bool): int -> nat {
    (t: int) => if inside(t) then 1 else 0
  }

  /** An interval: with two instants it has every instant between them. */
  ghost predicate Convex(inside: int -> bool) {
    forall x, y, z :: x <= y <= z && inside(x) && inside(z) ==> inside(y)
  }

  lemma {:induction false} SumAtMostRest(times: seq<int>, f: int -> nat, m: nat)
    requires m <= |times| && forall t :: f(t) <= 1
    ensures Sum(times, f) <= Sum(times[..m], f) + (|times| - m)
    decreases |times| - m
  {
    if m == |times| {
      assert times[..m] == times;
    } else {
      SumAtMostRest(times, f, m + 1);
      assert times[..m+1] == times[..m] + [times[m]];
      SumAppend(times[..m], f, times[m]);
    }
  }

  /** If no interval position holds two admissions that are `n` apart in the log, it holds at
      most `n` of them. */
  lemma {:induction false} AtMost(times: seq<int>, inside: int -> bool, n: nat)
    requires Sorted(times) && Convex(inside)
    requires forall i :: 0 <= i && i + n < |times| ==> !(inside(times[i]) && inside(times[i+n]))
    ensures Sum(times, Within(inside)) <= n
  {
    if times != [] {
      var last := |times| - 1;
      if !inside(times[last]) {
        AtMost(times[..last], inside, n);
      } else if last < n {
        SumAtMostRest(times, Within(inside), 0);
      } else {
        var m := last - n + 1;
        SumPositive(times[..m], Within(inside));
        assert !inside(times[m - 1]) by { assert (m - 1) + n == last; }
        assert forall c :: 0 <= c < m ==> times[c] <= times[m - 1] <= times[last];
        SumAtMostRest(times, Within(inside), m);
      }
    }
  }

  // ---- Fixed windows ----

  /** An admission and the start of the window that counted it. */
  datatype Admission = Admission(at: int, start: int)

  /** Windows of one length that never overlap, and at most `limit` admissions in each. */
  ghost predicate Apart(h: seq<Admission>, width: int, limit: nat) {
    && (forall i :: 0 <= i < |h| ==> h[i].start <= h[i].at < h[i].start + width)
    && (forall i, j :: 0 <= i < j < |h| ==> h[i].start == h[j].start || h[i].start + width <= h[j].start)
    && (forall i :: 0 <= i && i + limit < |h| ==> h[i].start != h[i + limit].start)
  }

  /** The same, with the admissions in the order of their instants. */
  ghost predicate Windowed(h: seq<Admission>, width: int, limit: nat) {
    && Apart(h, width, limit)
    && (forall i, j :: 0 <= i < j < |h| ==> h[i].at <= h[j].at)
  }

  function Times(h: seq<Admission>): (times: seq<int>)
    ensures |times| == |h|
  {
    seq(|h|, i requires 0 <= i < |h| => h[i].at)
  }

  function Starts(h: seq<Admission>): (starts: seq<int>)
    ensures |starts| == |h|
  {
    seq(|h|, i requires 0 <= i < |h| => h[i].start)
  }

  function Span(a: int, width: int): int -> bool {
    (t: int) => a <= t <= a + width
  }

  /** The starts of the windows that meet the span. */
  function Meeting(a: int, width: int): int -> bool {
    (t: int) => a - width < t <= a + width
  }

  lemma {:induction false} TimesWithinWindows(h: seq<Admission>, width: int, a: int)
    requires forall i :: 0 <= i < |h| ==> h[i].start <= h[i].at < h[i].start + width
    ensures Sum(Times(h), Within(Span(a, width))) <= Sum(Starts(h), Within(Meeting(a, width)))
  {
    if h != [] {
      var n := |h| - 1;
      TimesWithinWindows(h[..n], width, a);
      assert Times(h)[..n] == Times(h[..n]) && Starts(h)[..n] == Starts(h[..n]);
    }
  }

  /** An interval as long as a window, even with both ends counted, meets at most two windows. */
  lemma TwoWindows(h: seq<Admission>, width: int, limit: nat, a: int)
    requires Apart(h, width, limit) && limit > 0 && width > 0
    ensures Sum(Times(h), Within(Span(a, width))) <= 2 * limit
  {
    var starts := Starts(h);
    TimesWithinWindows(h, width, a);
    forall i | 0 <= i && i + 2 * limit < |starts|
      ensures !(Meeting(a, width)(starts[i]) && Meeting(a, width)(starts[i + 2 * limit]))
    {
      assert h[i].start != h[i + limit].start && h[i + limit].start != h[(i + limit) + limit].start;
      assert h[i].start + width <= h[i + limit].start && h[i + limit].start + width <= h[(i + limit) + limit].start;
    }
    AtMost(starts, Meeting(a, width), 2 * limit);
  }

  /** The last `count` admissions belong to the window that starts at `start`, all others to
      windows that ended by then. */
  ghost predicate Current(h: seq<Admission>, width: int, start: int, count: nat) {
    && count <= |h|
    && (forall i :: 0 <= i < |h| - count ==> h[i].start + width <= start)
    && (forall i :: |h| - count <= i < |h| ==> h[i].start == start)
  }

  function StartsAt(start: int): Admission -> nat {
    (x: Admission) => if x.start == start then 1 else 0
  }

  lemma {:induction false} CurrentCounts(h: seq<Admission>, width: int, start: int, count: nat)
    requires Current(h, width, start, count) && width > 0
    ensures Sum(h, StartsAt(start)) == count
  {
    if h != [] {
      var n := |h| - 1;
      CurrentCounts(h[..n], width, start, if count > 0 then count - 1 else 0);
    }
  }

  /** An admission in the current window joins the tail that belongs to it. */
  lemma CurrentJoined(h: seq<Admission>, width: int, start: int, count: nat, now: int)
    requires Current(h, width, start, count)
    ensures Current(h + [Admission(now, start)], width, start, count + 1)
  {
  }

  lemma AdmitOne(h: seq<Admission>, width: int, limit: nat, start: int, count: nat, now: int)
    requires Apart(h, width, limit) && Current(h, width, start, count) && count < limit
    requires start <= now < start + width
    ensures Apart(h + [Admission(now, start)], width, limit)
    ensures Current(h + [Admission(now, start)], width, start, count + 1)
  {
    CurrentJoined(h, width, start, count, now);
    var g := h + [Admission(now, start)];
    assert g[|h|] == Admission(now, start) && forall i :: 0 <= i < |h| ==> g[i] == h[i];
    assert forall i :: 0 <= i < |h| ==> h[i].start == start || h[i].start + width <= start;
    forall i | 0 <= i && i + limit < |g| ensures g[i].start != g[i + limit].start {
      if i + limit == |h| { assert g[i] == h[i] && i < |h| - count; }
    }
    hide Current;
  }

  /** An admission at the latest instant so far keeps the order. */
  lemma AdmitLatest(h: seq<Admission>, width: int, limit: nat, start: int, now: int)
    requires Windowed(h, width, limit) && Apart(h + [Admission(now, start)], width, limit)
    requires forall i :: 0 <= i < |h| ==> h[i].at <= now
    ensures Windowed(h + [Admission(now, start)], width, limit)
  {
    hide Apart;
  }

  lemma NewWindow(h: seq<Admission>, width: int, start: int, count: nat, now: int)
    requires Current(h, width, start, count) && start + width <= now && 0 < width
    ensures Current(h, width, now, 0)
  {
  }
}

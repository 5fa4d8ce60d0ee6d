/** Concurrent callers of the Mini App limiter (internal/miniapp/ratelimit.go, lines 102-139).  The
    clock never runs backwards, but a caller reads it before it waits for the lock, so the locked
    sections may work with readings in any order. */
module MiniAppCallers {
  import opened MiniAppLimiter
  import opened MiniAppTraces

  datatype Caller = Waiting(key: Key, now: int) | Answered

  /** The last reading of the clock, the limiter's table, the callers by name, and the locked
      sections so far. */
  datatype State = State(clock: int, table: Table, callers: map<nat, Caller>, calls: seq<Call>)

  datatype Step = ReadClock(id: nat, key: Key, now: int) | Section(id: nat, answer: Answer, after: Table)

  ghost predicate Enabled(c: Config, s: State, step: Step) {
    match step
    case ReadClock(id, _, now) => id !in s.callers && s.clock <= now
    case Section(id, answer, after) =>
      && id in s.callers && s.callers[id].Waiting?
      && Called(c, s.table, s.callers[id].key, s.callers[id].now, answer, after)
  }

  ghost function Apply(c: Config, s: State, step: Step): State
    requires Enabled(c, s, step)
  {
    match step
    case ReadClock(id, key, now) => s.(clock := now, callers := s.callers[id := Waiting(key, now)])
    case Section(id, answer, after) =>
      var call := Call(s.callers[id].key, s.callers[id].now, answer, after);
      s.(table := after, callers := s.callers[id := Answered], calls := s.calls + [call])
  }

  function Started(clock: int): State { State(clock, EMPTY, map[], []) }

  ghost predicate Runs(c: Config, s: State, steps: seq<Step>, t: State)
    decreases |steps|
  {
    if steps == [] then t == s
    else Enabled(c, s, steps[0]) && Runs(c, Apply(c, s, steps[0]), steps[1..], t)
  }

  lemma {:induction false} RunOneMore(c: Config, s: State, steps: seq<Step>, m: State, step: Step)
    requires Runs(c, s, steps, m) && Enabled(c, m, step)
    ensures Runs(c, s, steps + [step], Apply(c, m, step))
    decreases |steps|
  {
    hide Enabled, Apply;
    if steps == [] {
      assert ([] + [step])[1..] == [] && ([] + [step])[0] == step;
    } else {
      RunOneMore(c, Apply(c, s, steps[0]), steps[1..], m, step);
      assert (steps + [step])[1..] == steps[1..] + [step];
    }
  }

  // ---- Every run is a trace ----

  lemma {:induction false} TraceOneMore(c: Config, t: Table, calls: seq<Call>, call: Call)
    requires Trace(c, t, calls) && Called(c, Final(t, calls), call.key, call.now, call.answer, call.after)
    ensures Trace(c, t, calls + [call])
    decreases |calls|
  {
    hide Called;
    if calls == [] {
      assert ([] + [call])[1..] == [] && ([] + [call])[0] == call;
    } else {
      TraceOneMore(c, calls[0].after, calls[1..], call);
      assert (calls + [call])[1..] == calls[1..] + [call];
    }
  }

  ghost predicate Recorded(c: Config, s: State) {
    Trace(c, EMPTY, s.calls) && s.table == Final(EMPTY, s.calls)
  }

  lemma {:induction false} RunsRecord(c: Config, s: State, steps: seq<Step>, t: State)
    requires Recorded(c, s) && Runs(c, s, steps, t)
    ensures Recorded(c, t)
    decreases |steps|
  {
    hide Called;
    if steps != [] {
      var u := Apply(c, s, steps[0]);
      if steps[0].Section? { TraceOneMore(c, EMPTY, s.calls, u.calls[|s.calls|]); }
      RunsRecord(c, u, steps[1..], t);
    }
  }

  lemma {:induction false} CallsKept(c: Config, s: State, steps: seq<Step>, t: State)
    requires Runs(c, s, steps, t)
    ensures s.calls <= t.calls
    decreases |steps|
  {
    hide Called;
    if steps != [] { CallsKept(c, Apply(c, s, steps[0]), steps[1..], t); }
  }

  predicate Read(steps: seq<Step>, call: Call) {
    exists i :: 0 <= i < |steps| && steps[i].ReadClock? && steps[i].key == call.key && steps[i].now == call.now
  }

  ghost predicate Awaits(callers: map<nat, Caller>, call: Call) {
    exists id :: id in callers && callers[id] == Waiting(call.key, call.now)
  }

  lemma {:induction false} ReadOrAwaited(c: Config, s: State, steps: seq<Step>, t: State, k: nat)
    requires Runs(c, s, steps, t) && |s.calls| <= k < |t.calls|
    ensures Read(steps, t.calls[k]) || Awaits(s.callers, t.calls[k])
    decreases |steps|
  {
    hide Called;
    var u := Apply(c, s, steps[0]);
    CallsKept(c, u, steps[1..], t);
    if k < |u.calls| {
      assert t.calls[k] == u.calls[k];
      assert s.callers[steps[0].id] == Waiting(t.calls[k].key, t.calls[k].now);
    } else {
      ReadOrAwaited(c, u, steps[1..], t, k);
      if Read(steps[1..], t.calls[k]) {
        var i :| 0 <= i < |steps| - 1 && steps[1..][i].ReadClock? && steps[1..][i].key == t.calls[k].key
                 && steps[1..][i].now == t.calls[k].now;
        assert steps[i+1] == steps[1..][i];
      } else {
        var id :| id in u.callers && u.callers[id] == Waiting(t.calls[k].key, t.calls[k].now);
        assert id !in s.callers || s.callers[id] != u.callers[id] ==> steps[0].ReadClock? && steps[0].id == id;
      }
    }
  }

  /** Every locked section works with the key and the reading of a clock reading of the run. */
  lemma CallsWereRead(c: Config, start: int, steps: seq<Step>, t: State, k: nat)
    requires Runs(c, Started(start), steps, t) && k < |t.calls|
    ensures Read(steps, t.calls[k])
  {
    ReadOrAwaited(c, Started(start), steps, t, k);
  }

  /** The readings never decrease in the order in which they are taken. */
  lemma {:induction false} ReadingsAscend(c: Config, s: State, steps: seq<Step>, t: State, i: nat, j: nat)
    requires Runs(c, s, steps, t) && i <= j < |steps| && steps[i].ReadClock? && steps[j].ReadClock?
    ensures s.clock <= steps[i].now <= steps[j].now
    decreases |steps|, j
  {
    hide Called;
    if i > 0 {
      ReadingsAscend(c, Apply(c, s, steps[0]), steps[1..], t, i - 1, j - 1);
    } else if j > 0 {
      ReadingsAscend(c, Apply(c, s, steps[0]), steps[1..], t, j - 1, j - 1);
    }
  }

  // ---- Every trace is a run ----

  predicate InOrder(calls: seq<Call>, order: seq<nat>) {
    && (forall i :: 0 <= i < |order| ==> order[i] < |calls|)
    && (forall i, j :: 0 <= i < j < |order| ==> order[i] != order[j] && calls[order[i]].now <= calls[order[j]].now)
  }

  /** The first `n` calls, ordered by their readings. */
  lemma {:induction false} ByReading(calls: seq<Call>, n: nat) returns (order: seq<nat>)
    requires n <= |calls|
    ensures InOrder(calls, order) && forall id: nat :: id in order <==> id < n
  {
    if n == 0 {
      order := [];
    } else {
      var before := ByReading(calls, n - 1);
      var k := 0;
      while k < |before| && calls[before[k]].now <= calls[n-1].now
        invariant k <= |before| && forall i :: 0 <= i < k ==> calls[before[i]].now <= calls[n-1].now
      {
        k := k + 1;
      }
      order := before[..k] + [n - 1] + before[k..];
      Inserted(calls, before, k, n - 1);
      hide InOrder;
      InsertedMembers(before, k, n - 1);
    }
  }

  lemma InsertedMembers(before: seq<nat>, k: nat, id: nat)
    requires k <= |before|
    ensures forall x: nat :: x in before[..k] + [id] + before[k..] <==> x == id || x in before
  {
    assert before == before[..k] + before[k..];
  }

  lemma Inserted(calls: seq<Call>, before: seq<nat>, k: nat, id: nat)
    requires InOrder(calls, before) && id !in before && id < |calls| && k <= |before|
    requires forall i :: 0 <= i < k ==> calls[before[i]].now <= calls[id].now
    requires k < |before| ==> calls[id].now < calls[before[k]].now
    ensures InOrder(calls, before[..k] + [id] + before[k..])
  {
    var order := before[..k] + [id] + before[k..];
    forall i | 0 <= i < |order|
      ensures order[i] == if i < k then before[i] else if i == k then id else before[i-1]
    {
    }
    assert forall i :: k <= i < |before| ==> calls[before[k]].now <= calls[before[i]].now;
  }

  function Readings(calls: seq<Call>, order: seq<nat>): seq<Step>
    requires InOrder(calls, order)
  {
    seq(|order|, i requires 0 <= i < |order| => ReadClock(order[i], calls[order[i]].key, calls[order[i]].now))
  }

  function WaitingFor(calls: seq<Call>, order: seq<nat>): map<nat, Caller>
    requires InOrder(calls, order)
  {
    map id | id in order :: Waiting(calls[id].key, calls[id].now)
  }

  /** When the callers in `order` have read the clock. */
  function AfterReadings(calls: seq<Call>, order: seq<nat>, start: int): State
    requires InOrder(calls, order)
  {
    State(if order == [] then start else calls[order[|order|-1]].now, EMPTY, WaitingFor(calls, order), [])
  }

  lemma OneMoreReading(c: Config, calls: seq<Call>, order: seq<nat>, start: int, id: nat)
    requires id < |calls| && InOrder(calls, order) && InOrder(calls, order + [id])
    requires order == [] ==> start <= calls[id].now
    ensures var s, step := AfterReadings(calls, order, start), ReadClock(id, calls[id].key, calls[id].now);
            && Enabled(c, s, step) && Apply(c, s, step) == AfterReadings(calls, order + [id], start)
            && Readings(calls, order + [id]) == Readings(calls, order) + [step]
  {
    hide Called;
    var more := order + [id];
    assert more[|order|] == id && forall i :: 0 <= i < |order| ==> more[i] == order[i];
    assert id !in order;
    assert order != [] ==> calls[order[|order|-1]].now <= calls[more[|order|]].now;
    assert WaitingFor(calls, more) == WaitingFor(calls, order)[id := Waiting(calls[id].key, calls[id].now)];
  }

  lemma InOrderPrefix(calls: seq<Call>, order: seq<nat>)
    requires InOrder(calls, order) && order != []
    ensures InOrder(calls, order[..|order|-1]) && order[|order|-1] < |calls| && order[0] < |calls|
  {
  }

  lemma NoReadings(c: Config, calls: seq<Call>, start: int)
    ensures InOrder(calls, [])
    ensures Runs(c, Started(start), Readings(calls, []), AfterReadings(calls, [], start))
  {
    assert WaitingFor(calls, []) == map[];
  }

  /** The callers read the clock one after the other. */
  lemma {:induction false} ReadingsRun(c: Config, calls: seq<Call>, order: seq<nat>, start: int)
    requires InOrder(calls, order) && (order != [] ==> order[0] < |calls| && start <= calls[order[0]].now)
    ensures Runs(c, Started(start), Readings(calls, order), AfterReadings(calls, order, start))
    decreases |order|
  {
    hide Enabled, Apply, InOrder, Runs, Readings, AfterReadings;
    if order == [] {
      NoReadings(c, calls, start);
    } else {
      InOrderPrefix(calls, order);
      var n := |order| - 1;
      var before, id := order[..n], order[n];
      assert order == before + [id];
      ReadingsRun(c, calls, before, start);
      OneMoreReading(c, calls, before, start, id);
      RunOneMore(c, Started(start), Readings(calls, before), AfterReadings(calls, before, start),
                 ReadClock(id, calls[id].key, calls[id].now));
    }
  }

  function Answering(calls: seq<Call>, n: nat): map<nat, Caller>
    requires n <= |calls|
  {
    map id: nat | id < |calls| :: if id < n then Answered else Waiting(calls[id].key, calls[id].now)
  }

  lemma {:induction false} TraceAt(c: Config, t: Table, calls: seq<Call>, n: nat)
    requires Trace(c, t, calls) && n < |calls|
    ensures Called(c, Final(t, calls[..n]), calls[n].key, calls[n].now, calls[n].answer, calls[n].after)
    decreases |calls|
  {
    hide Called;
    if n > 0 {
      TraceAt(c, calls[0].after, calls[1..], n - 1);
      assert calls[1..][..n-1] == calls[..n][1..];
    }
  }

  /** Then they get the lock in the order of the trace. */
  lemma SectionsRun(c: Config, s: State, steps: seq<Step>, calls: seq<Call>, clock: int) returns (all: seq<Step>)
    requires Trace(c, EMPTY, calls) && Runs(c, s, steps, State(clock, EMPTY, Answering(calls, 0), []))
    ensures Runs(c, s, all, State(clock, Final(EMPTY, calls), Answering(calls, |calls|), calls))
  {
    hide Called, Trace, Runs;
    all := steps;
    var n := 0;
    while n < |calls|
      invariant n <= |calls|
      invariant Runs(c, s, all, State(clock, Final(EMPTY, calls[..n]), Answering(calls, n), calls[..n]))
    {
      var m := State(clock, Final(EMPTY, calls[..n]), Answering(calls, n), calls[..n]);
      var step := Section(n, calls[n].answer, calls[n].after);
      TraceAt(c, EMPTY, calls, n);
      RunOneMore(c, s, all, m, step);
      assert calls[..n+1] == calls[..n] + [calls[n]];
      assert Answering(calls, n + 1) == Answering(calls, n)[n := Answered];
      all := all + [step];
      n := n + 1;
    }
    assert calls[..|calls|] == calls;
  }

  lemma TraceIsRun(c: Config, calls: seq<Call>) returns (start: int, steps: seq<Step>, t: State)
    requires Trace(c, EMPTY, calls)
    ensures Runs(c, Started(start), steps, t) && t.calls == calls
  {
    var order := ByReading(calls, |calls|);
    start := if order == [] then 0 else calls[order[0]].now;
    ReadingsRun(c, calls, order, start);
    assert WaitingFor(calls, order) == Answering(calls, 0);
    var clock := AfterReadings(calls, order, start).clock;
    steps := SectionsRun(c, Started(start), Readings(calls, order), calls, clock);
    t := State(clock, Final(EMPTY, calls), Answering(calls, |calls|), calls);
  }

  /** The traces of the limiter are exactly what concurrent callers under a clock that never runs
      backwards can do. */
  lemma RunsAreTraces(c: Config, calls: seq<Call>)
    ensures Trace(c, EMPTY, calls) <==> exists start, steps, t :: Runs(c, Started(start), steps, t) && t.calls == calls
  {
    if Trace(c, EMPTY, calls) {
      var start, steps, t := TraceIsRun(c, calls);
    }
    if start, steps, t :| Runs(c, Started(start), steps, t) && t.calls == calls {
      assert Final(EMPTY, []) == EMPTY;
      RunsRecord(c, Started(start), steps, t);
    }
  }

  /** Whatever the limit and the window, `n` concurrent callers can all be admitted within `n`
      nanoseconds: they get the lock in the reverse order of their readings. */
  lemma NoBoundForCallers(c: Config, key: Key, n: nat) returns (start: int, steps: seq<Step>, t: State)
    requires c.Valid() && !key.class_.NoClass?
    ensures Runs(c, Started(start), steps, t) && |t.calls| == n
    ensures forall i :: 0 <= i < n ==> t.calls[i].key == key && t.calls[i].now == n - i && t.calls[i].answer == Allowed
  {
    var calls := ReversedAllAdmitted(c, key, n);
    start, steps, t := TraceIsRun(c, calls);
  }
}

/** The per-user command throttle `checkCommandRateLimit` (internal/bot/command.go, lines
    157-185): a sliding log of admissions, compacted in place in its backing array. */
module CommandLimiter {
  import opened Basics
  import opened Tally
  import opened Admissions

  const MAX_COMMANDS: nat := 60
  const WINDOW: int := 60 * SECOND

  /** The instants after now - WINDOW, in order. */
  function Kept(log: seq<int>, now: int): seq<int> {
    if log == [] then []
    else Kept(log[..|log|-1], now) + if log[|log|-1] > now - WINDOW then [log[|log|-1]] else []
  }

  /** One call at `now`: the log after it, and whether the command was refused. */
  function Called(log: seq<int>, now: int): (seq<int>, bool) {
    var recent := Kept(log, now);
    if |recent| >= MAX_COMMANDS then (recent, true) else (recent + [now], false)
  }

  // ---- The code ----

  /** A Go slice: the first `len` elements of a backing array. */
  class Slice {
    var data: array<int>
    var len: nat

    constructor ()
      ensures fresh(data) && len == 0 && data.Length == 0
    {
      data, len := new int[0], 0;
    }

    ghost predicate Valid() reads this { len <= data.Length }

    ghost function Elems(): seq<int>
      reads this, data
      requires Valid()
    {
      data[..len]
    }

    /** Keeps the recent instants, writing each over an element that has been read already. */
    method Compact(now: int)
      requires Valid()
      modifies this`len, data
      ensures Valid() && Elems() == Kept(old(Elems()), now)
    {
      ghost var log := Elems();
      var kept := 0;
      var i := 0;
      while i < len
        invariant kept <= i <= len == |log|
        invariant data[..kept] == Kept(log[..i], now)
        invariant data[i..len] == log[i..]
        modifies data
      {
        assert data[i] == log[i] && log[..i+1][..i] == log[..i];
        assert data[i+1..len] == log[i+1..] by { assert data[i+1..len] == data[i..len][1..]; }
        if data[i] > now - WINDOW {
          data[kept] := data[i];
          kept := kept + 1;
        }
        i := i + 1;
      }
      assert log[..len] == log;
      len := kept;
    }

    /** append: in place while the array has room, otherwise into a larger array. */
    method Append(x: int)
      requires Valid()
      modifies this, data
      ensures Valid() && Elems() == old(Elems()) + [x]
      ensures data == old(data) || fresh(data)
    {
      if len == data.Length {
        var bigger := new int[2 * len + 1];
        for i := 0 to len
          invariant bigger[..i] == data[..i]
          invariant data[..len] == old(data[..len])
          modifies bigger
        {
          bigger[i] := data[i];
        }
        data := bigger;
      }
      data[len] := x;
      len := len + 1;
    }

    /** What a call does to the user's slice. */
    method Admit(now: int) returns (limited: bool)
      requires Valid()
      modifies this, data
      ensures Valid() && (Elems(), limited) == Called(old(Elems()), now)
      ensures data == old(data) || fresh(data)
    {
      hide Kept;
      Compact(now);
      if len >= MAX_COMMANDS { return true; }
      Append(now);
      return false;
    }
  }

  class CommandThrottle {
    var logs: map<int, Slice>

    ghost predicate Valid()
      reads this, logs.Values
    {
      && (forall u :: u in logs ==> logs[u].Valid())
      && (forall u, v :: u in logs && v in logs && u != v ==> logs[u] != logs[v] && logs[u].data != logs[v].data)
    }

    ghost function Log(user: int): seq<int>
      reads this, logs.Values, set u | u in logs :: logs[u].data
      requires Valid()
    {
      if user in logs then logs[user].Elems() else []
    }

    constructor ()
      ensures Valid() && forall u :: Log(u) == []
    {
      logs := map[];
    }

    method Check(user: int, now: int) returns (limited: bool)
      requires Valid()
      modifies this, if user in logs then {logs[user], logs[user].data} else {}
      ensures Valid()
      ensures (Log(user), limited) == Called(old(Log(user)), now)
      ensures forall v :: v != user ==> Log(v) == old(Log(v))
    {
      if user !in logs {
        var empty := new Slice();
        logs := logs[user := empty];
      }
      hide Called;
      var recent := logs[user];
      limited := recent.Admit(now);
    }
  }

  // ---- The log against the full history ----

  /** After calls at the given instants: the log, every admission ever, and the answers. */
  datatype Run = Run(log: seq<int>, history: seq<int>, refused: seq<bool>)

  function Next(r: Run, now: int): Run {
    var (log, no) := Called(r.log, now);
    Run(log, if no then r.history else r.history + [now], r.refused + [no])
  }

  function After(calls: seq<int>): Run {
    if calls == [] then Run([], [], []) else Next(After(calls[..|calls|-1]), calls[|calls|-1])
  }

  lemma KeptAppend(log: seq<int>, x: int, now: int)
    ensures Kept(log + [x], now) == Kept(log, now) + if x > now - WINDOW then [x] else []
  {
    assert (log + [x])[..|log|] == log;
  }

  lemma {:induction false} KeptKept(log: seq<int>, a: int, b: int)
    requires a <= b
    ensures Kept(Kept(log, a), b) == Kept(log, b)
  {
    if log != [] {
      var n := |log| - 1;
      KeptKept(log[..n], a, b);
      KeptAppend(Kept(log[..n], a), log[n], b);
      assert log[n] <= a - WINDOW ==> Kept(log, a) == Kept(log[..n], a) && Kept(log, b) == Kept(log[..n], b);
    }
  }

  /** Among instants up to `now`, the kept ones are those of (now - WINDOW, now]. */
  function Recently(now: int): int -> bool {
    (t: int) => now - WINDOW < t <= now
  }

  lemma {:induction false} KeptCounts(log: seq<int>, now: int)
    requires forall i :: 0 <= i < |log| ==> log[i] <= now
    ensures |Kept(log, now)| == Sum(log, Within(Recently(now)))
  {
    if log != [] { KeptCounts(log[..|log|-1], now); }
  }

  lemma {:induction false} KeptSuffix(log: seq<int>, now: int, n: nat)
    requires n <= |log| && forall i :: |log| - n <= i < |log| ==> log[i] > now - WINDOW
    ensures |Kept(log, now)| >= n
  {
    if n > 0 { KeptSuffix(log[..|log|-1], now, n - 1); }
  }

  /** Every two admissions with `MAX_COMMANDS` positions between them are a window apart. */
  ghost predicate Spread(history: seq<int>) {
    forall i :: 0 <= i && i + MAX_COMMANDS < |history| ==> history[i] + WINDOW <= history[i + MAX_COMMANDS]
  }

  /** After a call at `last`: the log is the recent part of the history. */
  ghost predicate RunInv(r: Run, last: int) {
    && r.log == Kept(r.history, last)
    && Sorted(r.history) && Spread(r.history)
    && forall i :: 0 <= i < |r.history| ==> r.history[i] <= last
  }

  lemma AdmitSpread(history: seq<int>, now: int)
    requires Sorted(history) && Spread(history) && |Kept(history, now)| < MAX_COMMANDS
    requires forall i :: 0 <= i < |history| ==> history[i] <= now
    ensures Sorted(history + [now]) && Spread(history + [now])
  {
    if |history| >= MAX_COMMANDS {
      var i := |history| - MAX_COMMANDS;
      if history[i] > now - WINDOW { KeptSuffix(history, now, MAX_COMMANDS); }
    }
  }

  lemma NextInv(r: Run, last: int, now: int)
    requires RunInv(r, last) && last <= now
    ensures RunInv(Next(r, now), now)
    ensures Next(r, now).refused == r.refused + [|Kept(r.history, now)| >= MAX_COMMANDS]
  {
    hide Kept, Sorted, Spread;
    KeptKept(r.history, last, now);
    if |Kept(r.history, now)| < MAX_COMMANDS {
      AdmitSpread(r.history, now);
      KeptAppend(r.history, now, now);
    }
  }

  lemma {:induction false} AfterInv(calls: seq<int>, last: int)
    requires Sorted(calls) && (calls == [] || calls[|calls|-1] == last)
    ensures RunInv(After(calls), last) && |After(calls).refused| == |calls|
  {
    if calls != [] {
      var before := calls[..|calls|-1];
      var previous := if before == [] then last else before[|before|-1];
      AfterInv(before, previous);
      NextInv(After(before), previous, last);
    }
  }

  /** With a clock that does not run backwards, after any calls followed by one at `now`: the log
      is exactly the admissions of the last minute, and the call is refused exactly if sixty were
      admitted there. */
  lemma RefinesHistory(calls: seq<int>, now: int)
    requires Sorted(calls + [now])
    ensures var before, r := After(calls), After(calls + [now]);
            && r.log == Kept(r.history, now)
            && r.refused == before.refused + [Sum(before.history, Within(Recently(now))) >= 60]
            && r.history == before.history + (if Sum(before.history, Within(Recently(now))) >= 60 then [] else [now])
  {
    hide Kept, Within, Recently, After, Next, Sorted, Spread;
    SortedEnd(calls, now);
    AfterOneMore(calls, now);
    var last := if calls == [] then now else calls[|calls|-1];
    AfterInv(calls, last);
    NextInv(After(calls), last, now);
    KeptCounts(After(calls).history, now);
    NextHistory(After(calls), last, now);
  }

  lemma SortedEnd(calls: seq<int>, now: int)
    requires Sorted(calls + [now])
    ensures Sorted(calls) && (calls != [] ==> calls[|calls|-1] <= now)
  {
    var all := calls + [now];
    assert all[|calls|] == now && forall i :: 0 <= i < |calls| ==> all[i] == calls[i];
  }

  lemma AfterOneMore(calls: seq<int>, now: int)
    ensures After(calls + [now]) == Next(After(calls), now)
  {
    var all := calls + [now];
    assert all[..|calls|] == calls && all[|calls|] == now;
  }

  lemma NextHistory(r: Run, last: int, now: int)
    requires RunInv(r, last) && last <= now
    ensures Next(r, now).history == r.history + if |Kept(r.history, now)| >= MAX_COMMANDS then [] else [now]
  {
    hide Kept;
    KeptKept(r.history, last, now);
  }

  lemma CountBoth(a: seq<int>, b: seq<int>, x: int)
    ensures multiset(a + b)[x] == multiset(a)[x] + multiset(b)[x]
  {
  }

  /** What is kept: exactly the instants less than sixty seconds ago, each as often. */
  lemma {:induction false} KeptCount(log: seq<int>, now: int, x: int)
    ensures multiset(Kept(log, now))[x] == if x > now - 60 * SECOND then multiset(log)[x] else 0
  {
    if log != [] {
      var n := |log| - 1;
      KeptCount(log[..n], now, x);
      KeptAppend(log[..n], log[n], now);
      assert log == log[..n] + [log[n]];
      hide Kept;
      CountBoth(log[..n], [log[n]], x);
      CountBoth(Kept(log[..n], now), if log[n] > now - WINDOW then [log[n]] else [], x);
    }
  }

  lemma {:induction false} KeptMembers(log: seq<int>, now: int)
    ensures forall x :: x in Kept(log, now) ==> x in log
  {
    if log != [] {
      KeptMembers(log[..|log|-1], now);
      assert forall x :: x in log[..|log|-1] ==> x in log;
    }
  }

  /** And in their order. */
  lemma {:induction false} KeptSorted(log: seq<int>, now: int)
    requires Sorted(log)
    ensures Sorted(Kept(log, now))
  {
    if log != [] {
      var n := |log| - 1;
      KeptSorted(log[..n], now);
      KeptMembers(log[..n], now);
      forall x | x in Kept(log[..n], now) ensures x <= log[n] {
        var i :| 0 <= i < n && log[..n][i] == x;
        assert log[i] <= log[n];
      }
      SortedMore(Kept(log[..n], now), log[n]);
    }
  }

  lemma SortedMore(s: seq<int>, y: int)
    requires Sorted(s) && forall x :: x in s ==> x <= y
    ensures Sorted(s + [y])
  {
    assert forall i :: 0 <= i < |s| ==> s[i] in s;
  }

  /** The two kinds of minutes. */
  lemma Minutes(a: int, now: int, t: int)
    ensures Recently(now)(t) <==> now - 60 * SECOND < t <= now
    ensures MinuteFrom(a)(t) <==> a < t <= a + 60 * SECOND
  {
  }

  function MinuteFrom(a: int): int -> bool {
    (t: int) => a < t <= a + WINDOW
  }

  /** No minute (a, a + 60s] ever holds more than sixty admissions. */
  lemma NoMinuteOverLimit(calls: seq<int>, a: int)
    requires Sorted(calls)
    ensures Sum(After(calls).history, Within(MinuteFrom(a))) <= 60
  {
    AfterInv(calls, if calls == [] then 0 else calls[|calls|-1]);
    AtMost(After(calls).history, MinuteFrom(a), MAX_COMMANDS);
  }
}

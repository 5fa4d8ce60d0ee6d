/** The two duplicate filters with a persisted ledger: Telegram update ids
    (internal/bot/poll_dedup.go) and webhook body fingerprints (internal/api/router.go), over the
    ledger file of pkg/dedupfile/dedupfile.go. */
module Dedup {
  import opened Basics

  /** The in-memory table, the instant of the last successful save of this process, and the
      ledger file, which keeps whole seconds. */
  datatype Filter<K> = Filter(seen: map<K, int>, lastSave: Option<int>, disk: map<K, int>)

  const SAVE_INTERVAL: int := 30 * SECOND

  /** `ttlSec` is the time for which a key is remembered, a positive number of whole seconds. */
  function Ttl(ttlSec: int): int { ttlSec * SECOND }

  predicate Remembers<K>(seen: map<K, int>, ttlSec: int, now: int, key: K) {
    key in seen && now - seen[key] < Ttl(ttlSec)
  }

  function Floored<K>(seen: map<K, int>): map<K, int> {
    map k | k in seen :: UnixSeconds(seen[k])
  }

  /** A save replaces the whole file or, failing, leaves it alone.  A filter without a file
      behaves as if every save failed. */
  function Save<K>(f: Filter<K>, ok: bool, savedAt: int): Filter<K> {
    if ok then Filter(f.seen, Some(savedAt), Floored(f.seen)) else f
  }

  predicate SaveDue(lastSave: Option<int>, now: int) {
    lastSave.None? || now - lastSave.value >= SAVE_INTERVAL
  }

  /** One call of `updateDeduper.accept` that finds the key new. */
  function Record<K>(f: Filter<K>, now: int, key: K, ok: bool, savedAt: int): Filter<K> {
    var g := f.(seen := f.seen[key := now]);
    if SaveDue(f.lastSave, now) then Save(g, ok, savedAt) else g
  }

  /** The entries that `updateDeduper.prune` keeps. */
  function Unexpired<K>(seen: map<K, int>, ttlSec: int, now: int): map<K, int> {
    map k | k in seen && seen[k] >= now - Ttl(ttlSec) :: seen[k]
  }

  function Prune<K>(f: Filter<K>, ttlSec: int, now: int, ok: bool, savedAt: int): Filter<K> {
    var g := f.(seen := Unexpired(f.seen, ttlSec, now));
    if |g.seen| < |f.seen| then Save(g, ok, savedAt) else g
  }

  /** The entries that `webhookDedup.mark` keeps: here an entry of age `ttl` goes too. */
  function Inside<K>(seen: map<K, int>, ttlSec: int, now: int): map<K, int> {
    map k | k in seen && now - seen[k] < Ttl(ttlSec) :: seen[k]
  }

  /** One call of `webhookDedup.mark` that finds the key new. */
  function MarkNew<K>(f: Filter<K>, ttlSec: int, now: int, key: K, ok: bool, savedAt: int): Filter<K> {
    var seen := f.seen[key := now];
    var g := f.(seen := Inside(seen, ttlSec, now));
    if |g.seen| < |seen| || SaveDue(f.lastSave, now) then Save(g, ok, savedAt) else g
  }

  /** `dedupfile.Load`: without a positive `ttlSec` nothing is filtered. */
  function Load<K>(disk: map<K, int>, ttlSec: int, now: int): map<K, int> {
    map k | k in disk && (ttlSec <= 0 || UnixSeconds(now) - disk[k] < ttlSec) :: disk[k]
  }

  function FromSeconds<K>(entries: map<K, int>): map<K, int> {
    map k | k in entries :: entries[k] * SECOND
  }

  /** A crash and a new process: only the file survives. */
  function Restart<K>(f: Filter<K>, ttlSec: int, now: int): Filter<K> {
    Filter(FromSeconds(Load(f.disk, ttlSec, now)), None, f.disk)
  }

  // ---- Runs ----

  /** `now` is the clock reading of the operation, `savedAt` the one its save takes afterwards,
      and `ok` whether that save would succeed. */
  datatype Event<K> =
    | Accept(now: int, key: K, ok: bool, savedAt: int)
    | Mark(now: int, key: K, ok: bool, savedAt: int)
    | Sweep(now: int, ok: bool, savedAt: int)
    | Crash(now: int, ok: bool, savedAt: int)

  predicate Asks<K>(e: Event<K>) { e.Accept? || e.Mark? }

  function Step<K>(f: Filter<K>, ttlSec: int, e: Event<K>): Filter<K> {
    match e
    case Accept(now, key, ok, savedAt) =>
      if Remembers(f.seen, ttlSec, now, key) then f else Record(f, now, key, ok, savedAt)
    case Mark(now, key, ok, savedAt) =>
      if Remembers(f.seen, ttlSec, now, key) then f else MarkNew(f, ttlSec, now, key, ok, savedAt)
    case Sweep(now, ok, savedAt) => Prune(f, ttlSec, now, ok, savedAt)
    case Crash(now, _, _) => Restart(f, ttlSec, now)
  }

  lemma SaveKeys<K>(f: Filter<K>, ok: bool, savedAt: int)
    ensures Save(f, ok, savedAt).seen == f.seen
    ensures Save(f, ok, savedAt).disk.Keys == if ok then f.seen.Keys else f.disk.Keys
  {
  }

  lemma RecordKeys<K>(f: Filter<K>, now: int, key: K, ok: bool, savedAt: int)
    ensures Record(f, now, key, ok, savedAt).seen.Keys == f.seen.Keys + {key}
    ensures Record(f, now, key, ok, savedAt).disk.Keys <= f.disk.Keys + f.seen.Keys + {key}
  {
    hide Save, SaveDue;
    SaveKeys(f.(seen := f.seen[key := now]), ok, savedAt);
  }

  lemma MarkKeys<K>(f: Filter<K>, ttlSec: int, now: int, key: K, ok: bool, savedAt: int)
    ensures MarkNew(f, ttlSec, now, key, ok, savedAt).seen.Keys <= f.seen.Keys + {key}
    ensures MarkNew(f, ttlSec, now, key, ok, savedAt).disk.Keys <= f.disk.Keys + f.seen.Keys + {key}
  {
    hide Save, SaveDue, Ttl;
    var kept := Inside(f.seen[key := now], ttlSec, now);
    assert kept.Keys <= f.seen.Keys + {key};
    SaveKeys(f.(seen := kept), ok, savedAt);
  }

  lemma PruneKeys<K>(f: Filter<K>, ttlSec: int, now: int, ok: bool, savedAt: int)
    ensures Prune(f, ttlSec, now, ok, savedAt).seen.Keys <= f.seen.Keys
    ensures Prune(f, ttlSec, now, ok, savedAt).disk.Keys <= f.disk.Keys + f.seen.Keys
  {
    hide Save, Ttl;
    SaveKeys(f.(seen := Unexpired(f.seen, ttlSec, now)), ok, savedAt);
  }

  lemma RestartKeys<K>(f: Filter<K>, ttlSec: int, now: int)
    ensures Restart(f, ttlSec, now).seen.Keys <= f.disk.Keys && Restart(f, ttlSec, now).disk == f.disk
  {
  }

  /** An operation adds no key but the one that it asks about. */
  lemma StepKeys<K>(f: Filter<K>, ttlSec: int, e: Event<K>)
    ensures Step(f, ttlSec, e).seen.Keys <= f.seen.Keys + f.disk.Keys + (if Asks(e) then {e.key} else {})
    ensures Step(f, ttlSec, e).disk.Keys <= f.disk.Keys + f.seen.Keys + (if Asks(e) then {e.key} else {})
  {
    hide Record, MarkNew, Prune, Restart, Remembers;
    match e {
      case Accept(now, key, ok, savedAt) => RecordKeys(f, now, key, ok, savedAt);
      case Mark(now, key, ok, savedAt) => MarkKeys(f, ttlSec, now, key, ok, savedAt);
      case Sweep(now, ok, savedAt) => PruneKeys(f, ttlSec, now, ok, savedAt);
      case Crash(now, _, _) => RestartKeys(f, ttlSec, now);
    }
  }

  /** Whether the operation wrote the file. */
  predicate Saves<K>(f: Filter<K>, ttlSec: int, e: Event<K>) {
    match e
    case Accept(now, key, ok, _) => ok && !Remembers(f.seen, ttlSec, now, key) && SaveDue(f.lastSave, now)
    case Mark(now, key, ok, _) =>
      && ok && !Remembers(f.seen, ttlSec, now, key)
      && (SaveDue(f.lastSave, now) || |Inside(f.seen[key := now], ttlSec, now)| < |f.seen[key := now]|)
    case Sweep(now, ok, _) => ok && |Unexpired(f.seen, ttlSec, now)| < |f.seen|
    case Crash(_, _, _) => false
  }

  /** The clock readings of a run never decrease. */
  predicate Clocked<K>(events: seq<Event<K>>, start: int)
    decreases |events|
  {
    events == [] || (start <= events[0].now <= events[0].savedAt && Clocked(events[1..], events[0].savedAt))
  }

  function Run<K>(f: Filter<K>, ttlSec: int, events: seq<Event<K>>): Filter<K>
    decreases |events|
  {
    if events == [] then f else Run(Step(f, ttlSec, events[0]), ttlSec, events[1..])
  }

  /** What the callers are told: for each question, whether the key was new. */
  function Answers<K>(f: Filter<K>, ttlSec: int, events: seq<Event<K>>): seq<bool>
    decreases |events|
  {
    if events == [] then []
    else
      (if Asks(events[0]) then [!Remembers(f.seen, ttlSec, events[0].now, events[0].key)] else [])
      + Answers(Step(f, ttlSec, events[0]), ttlSec, events[1..])
  }

  // ---- The specification: a log that never forgets ----

  /** Every acceptance so far, oldest first, and the part of it that a crash would leave.  A save
      copies the whole log, rounding its instants down; nothing is ever removed. */
  datatype Log<K> = Log(live: seq<(K, int)>, saved: seq<(K, int)>)

  ghost predicate Recent<K>(log: seq<(K, int)>, ttlSec: int, now: int, key: K) {
    exists i :: 0 <= i < |log| && log[i].0 == key && now - log[i].1 < Ttl(ttlSec)
  }

  function FlooredLog<K>(log: seq<(K, int)>): seq<(K, int)> {
    seq(|log|, i requires 0 <= i < |log| => (log[i].0, UnixSeconds(log[i].1) * SECOND))
  }

  ghost function LogStep<K>(log: Log<K>, ttlSec: int, e: Event<K>, saves: bool): Log<K> {
    if e.Crash? then Log(log.saved, log.saved)
    else
      var live := if Asks(e) && !Recent(log.live, ttlSec, e.now, e.key) then log.live + [(e.key, e.now)] else log.live;
      Log(live, if saves then FlooredLog(live) else log.saved)
  }

  /** What the log would tell the callers in the run of `f`, saving where `f` saves. */
  ghost function LogAnswers<K>(log: Log<K>, f: Filter<K>, ttlSec: int, events: seq<Event<K>>): seq<bool>
    decreases |events|
  {
    if events == [] then []
    else
      (if Asks(events[0]) then [!Recent(log.live, ttlSec, events[0].now, events[0].key)] else [])
      + LogAnswers(LogStep(log, ttlSec, events[0], Saves(f, ttlSec, events[0])), Step(f, ttlSec, events[0]),
                   ttlSec, events[1..])
  }

  /** From `now` on, table and log remember the same keys until the same instants. */
  ghost predicate SameMemory<K(!new)>(seen: map<K, int>, log: seq<(K, int)>, ttlSec: int, now: int) {
    && (forall i :: 0 <= i < |log| ==> log[i].1 <= now)
    && (forall key, t :: t >= now ==> (Remembers(seen, ttlSec, t, key) <==> Recent(log, ttlSec, t, key)))
  }

  ghost predicate Agree<K(!new)>(f: Filter<K>, log: Log<K>, ttlSec: int, now: int) {
    && SameMemory(f.seen, log.live, ttlSec, now)
    && SameMemory(FromSeconds(f.disk), log.saved, ttlSec, now)
  }

  lemma SameMemoryLater<K(!new)>(seen: map<K, int>, log: seq<(K, int)>, ttlSec: int, now: int, later: int)
    requires SameMemory(seen, log, ttlSec, now) && now <= later
    ensures SameMemory(seen, log, ttlSec, later)
  {
  }

  lemma SameMemoryRecord<K(!new)>(seen: map<K, int>, log: seq<(K, int)>, ttlSec: int, now: int, key: K)
    requires SameMemory(seen, log, ttlSec, now)
    ensures SameMemory(seen[key := now], log + [(key, now)], ttlSec, now)
  {
    var seen', log' := seen[key := now], log + [(key, now)];
    assert log'[|log|] == (key, now);
    assert forall i :: 0 <= i < |log| ==> log'[i] == log[i];
    forall k, t | t >= now ensures Remembers(seen', ttlSec, t, k) <==> Recent(log', ttlSec, t, k) {
      if Recent(log, ttlSec, t, k) {
        var i :| 0 <= i < |log| && log[i].0 == k && t - log[i].1 < Ttl(ttlSec);
        assert log'[i].0 == k;
      }
      if k == key {
        assert Remembers(seen', ttlSec, t, k) <==> t - now < Ttl(ttlSec);
      } else {
        assert Remembers(seen', ttlSec, t, k) <==> Remembers(seen, ttlSec, t, k);
      }
    }
  }

  /** Dropping expired entries changes no answer from then on. */
  lemma SameMemoryDrop<K(!new)>(seen: map<K, int>, log: seq<(K, int)>, ttlSec: int, now: int, kept: map<K, int>)
    requires SameMemory(seen, log, ttlSec, now)
    requires forall k :: k in kept ==> k in seen && kept[k] == seen[k]
    requires forall k :: k in seen && k !in kept ==> now - seen[k] >= Ttl(ttlSec)
    ensures SameMemory(kept, log, ttlSec, now)
  {
    forall k, t | t >= now ensures Remembers(kept, ttlSec, t, k) <==> Recent(log, ttlSec, t, k) {
      assert Remembers(kept, ttlSec, t, k) <==> Remembers(seen, ttlSec, t, k);
    }
  }

  /** Rounding both down to whole seconds keeps them in agreement. */
  lemma SameMemoryFloored<K(!new)>(seen: map<K, int>, log: seq<(K, int)>, ttlSec: int, now: int)
    requires SameMemory(seen, log, ttlSec, now)
    ensures SameMemory(FromSeconds(Floored(seen)), FlooredLog(log), ttlSec, now)
  {
    var table, file := FromSeconds(Floored(seen)), FlooredLog(log);
    forall i | 0 <= i < |file| ensures file[i].1 <= now { UnixSecondsBounds(log[i].1); }
    forall k, t | t >= now ensures Remembers(table, ttlSec, t, k) <==> Recent(file, ttlSec, t, k) {
      if Remembers(table, ttlSec, t, k) {
        UnixSecondsBounds(seen[k]);
        assert Remembers(seen, ttlSec, seen[k] + Ttl(ttlSec) - 1, k);
        var i :| 0 <= i < |log| && log[i].0 == k && seen[k] + Ttl(ttlSec) - 1 - log[i].1 < Ttl(ttlSec);
        UnixSecondsMonotone(seen[k], log[i].1);
        assert file[i].0 == k;
      }
      if Recent(file, ttlSec, t, k) {
        var i :| 0 <= i < |file| && file[i].0 == k && t - file[i].1 < Ttl(ttlSec);
        UnixSecondsBounds(log[i].1);
        assert log[i].0 == k;
        assert Recent(log, ttlSec, log[i].1 + Ttl(ttlSec) - 1, k);
        assert Remembers(seen, ttlSec, log[i].1 + Ttl(ttlSec) - 1, k);
        UnixSecondsMonotone(log[i].1, seen[k]);
      }
    }
  }

  /** Filtering the file on load, at whole-second precision, drops exactly the expired entries;
      without a lifetime nothing is expired. */
  lemma LoadDropsExpired<K>(disk: map<K, int>, ttlSec: int, now: int, key: K)
    ensures key in Load(disk, ttlSec, now)
            <==> key in disk && (ttlSec > 0 ==> now - disk[key] * SECOND < ttlSec * SECOND)
    ensures key in Load(disk, ttlSec, now) ==> Load(disk, ttlSec, now)[key] == disk[key]
  {
    UnixSecondsBounds(now);
  }

  lemma AgreeStep<K(!new)>(f: Filter<K>, log: Log<K>, ttlSec: int, now: int, e: Event<K>)
    requires ttlSec > 0 && Agree(f, log, ttlSec, now) && now <= e.now <= e.savedAt
    ensures Asks(e) ==> (Remembers(f.seen, ttlSec, e.now, e.key) <==> Recent(log.live, ttlSec, e.now, e.key))
    ensures Agree(Step(f, ttlSec, e), LogStep(log, ttlSec, e, Saves(f, ttlSec, e)), ttlSec, e.savedAt)
  {
    SameMemoryLater(f.seen, log.live, ttlSec, now, e.now);
    SameMemoryLater(FromSeconds(f.disk), log.saved, ttlSec, now, e.now);
    var g, log' := Step(f, ttlSec, e), LogStep(log, ttlSec, e, Saves(f, ttlSec, e));
    match e {
      case Accept(_, key, _, _) =>
        SameMemoryRecord(f.seen, log.live, ttlSec, e.now, key);
      case Mark(_, key, _, _) =>
        SameMemoryRecord(f.seen, log.live, ttlSec, e.now, key);
        SameMemoryDrop(f.seen[key := e.now], log.live + [(key, e.now)], ttlSec, e.now,
                       Inside(f.seen[key := e.now], ttlSec, e.now));
      case Sweep(_, _, _) =>
        SameMemoryDrop(f.seen, log.live, ttlSec, e.now, Unexpired(f.seen, ttlSec, e.now));
      case Crash(_, _, _) =>
        forall k | k in f.disk && k !in Load(f.disk, ttlSec, e.now) ensures e.now - f.disk[k] * SECOND >= Ttl(ttlSec) {
          LoadDropsExpired(f.disk, ttlSec, e.now, k);
        }
        SameMemoryDrop(FromSeconds(f.disk), log.saved, ttlSec, e.now, g.seen);
    }
    assert SameMemory(g.seen, log'.live, ttlSec, e.now);
    SameMemoryFloored(g.seen, log'.live, ttlSec, e.now);
    SameMemoryLater(g.seen, log'.live, ttlSec, e.now, e.savedAt);
    SameMemoryLater(FromSeconds(g.disk), log'.saved, ttlSec, e.now, e.savedAt);
  }

  /** Pruning, inline pruning and filtering on load are invisible: in every run, whatever saves
      fail and whenever the process crashes, the answers are those of the log. */
  lemma {:induction false} PruningIsInvisible<K(!new)>(
      f: Filter<K>, log: Log<K>, ttlSec: int, now: int, events: seq<Event<K>>)
    requires ttlSec > 0 && Agree(f, log, ttlSec, now) && Clocked(events, now)
    ensures Answers(f, ttlSec, events) == LogAnswers(log, f, ttlSec, events)
    decreases |events|
  {
    if events != [] {
      var e := events[0];
      AgreeStep(f, log, ttlSec, now, e);
      PruningIsInvisible(Step(f, ttlSec, e), LogStep(log, ttlSec, e, Saves(f, ttlSec, e)),
                         ttlSec, e.savedAt, events[1..]);
    }
  }

  /** The entries of the file as a log, in some order. */
  lemma {:induction false} FileLog<K>(disk: map<K, int>) returns (file: seq<(K, int)>)
    ensures forall i :: 0 <= i < |file| ==> file[i].0 in disk && file[i].1 == disk[file[i].0] * SECOND
    ensures forall k :: k in disk ==> exists i :: 0 <= i < |file| && file[i].0 == k
    decreases |disk|
  {
    if disk == map[] {
      file := [];
      assert disk.Keys == {};
    } else {
      var k :| k in disk;
      var rest := FileLog(disk - {k});
      file := rest + [(k, disk[k] * SECOND)];
      assert file[|rest|].0 == k && forall i :: 0 <= i < |rest| ==> file[i] == rest[i];
      forall x | x in disk ensures exists i :: 0 <= i < |file| && file[i].0 == x {
        if x != k {
          assert x in disk - {k};
          var i :| 0 <= i < |rest| && rest[i].0 == x;
          assert file[i].0 == x;
        }
      }
    }
  }

  /** A process that starts with a file from the past agrees with the log of that file. */
  lemma AgreeStarted<K(!new)>(disk: map<K, int>, ttlSec: int, start: int, file: seq<(K, int)>)
    requires ttlSec > 0 && forall k :: k in disk ==> disk[k] * SECOND <= start
    requires forall i :: 0 <= i < |file| ==> file[i].0 in disk && file[i].1 == disk[file[i].0] * SECOND
    requires forall k :: k in disk ==> exists i :: 0 <= i < |file| && file[i].0 == k
    ensures Agree(Restart(Filter(map[], None, disk), ttlSec, start), Log(file, file), ttlSec, start)
  {
    var table := FromSeconds(disk);
    assert SameMemory(table, file, ttlSec, start);
    var kept := FromSeconds(Load(disk, ttlSec, start));
    forall k | k in table && k !in kept ensures start - table[k] >= Ttl(ttlSec) {
      LoadDropsExpired(disk, ttlSec, start, k);
    }
    SameMemoryDrop(table, file, ttlSec, start, kept);
  }

  /** So every process, with a file or without, answers in every run as the log would that begins
      with the entries of its file. */
  lemma ProcessIsLog<K(!new)>(disk: map<K, int>, ttlSec: int, start: int, events: seq<Event<K>>)
    returns (file: seq<(K, int)>)
    requires ttlSec > 0 && Clocked(events, start) && forall k :: k in disk ==> disk[k] * SECOND <= start
    ensures (set i | 0 <= i < |file| :: file[i]) == set k | k in disk :: (k, disk[k] * SECOND)
    ensures var f := Restart(Filter(map[], None, disk), ttlSec, start);
            Answers(f, ttlSec, events) == LogAnswers(Log(file, file), f, ttlSec, events)
  {
    file := FileLog(disk);
    forall k | k in disk ensures (k, disk[k] * SECOND) in set i | 0 <= i < |file| :: file[i] {
      var i :| 0 <= i < |file| && file[i].0 == k;
      assert file[i] == (k, disk[k] * SECOND);
    }
    AgreeStarted(disk, ttlSec, start, file);
    PruningIsInvisible(Restart(Filter(map[], None, disk), ttlSec, start), Log(file, file), ttlSec, start, events);
  }

  // ---- How often a key is accepted ----

  /** From `last` on, `key` is refused exactly before `until`. */
  predicate RefusedUntil<K>(seen: map<K, int>, ttlSec: int, key: K, until: int, last: int) {
    if key in seen then seen[key] + Ttl(ttlSec) == until else until <= last
  }

  /** Within a process, a question about a key is answered by that instant, and only an acceptance
      moves it: to a lifetime later. */
  lemma RefusedStep<K>(f: Filter<K>, ttlSec: int, e: Event<K>, key: K, until: int, last: int)
    requires RefusedUntil(f.seen, ttlSec, key, until, last) && last <= e.now <= e.savedAt && !e.Crash? && ttlSec > 0
    ensures Asks(e) && e.key == key ==> (Remembers(f.seen, ttlSec, e.now, key) <==> e.now < until)
    ensures var accepted := Asks(e) && e.key == key && !Remembers(f.seen, ttlSec, e.now, key);
            RefusedUntil(Step(f, ttlSec, e).seen, ttlSec, key,
                         if accepted then e.now + Ttl(ttlSec) else until, e.savedAt)
  {
    hide SaveDue, Floored;
  }

  /** An acceptance refuses its key for `ttlSec` seconds, not less and not more, and leaves what is
      refused of other keys. */
  lemma AcceptedFor<K>(f: Filter<K>, ttlSec: int, e: Event<K>, t: int, other: K)
    requires ttlSec > 0 && Asks(e) && !Remembers(f.seen, ttlSec, e.now, e.key) && e.now <= t && other != e.key
    ensures Remembers(Step(f, ttlSec, e).seen, ttlSec, t, e.key) <==> t - e.now < ttlSec * SECOND
    ensures Remembers(Step(f, ttlSec, e).seen, ttlSec, t, other)
            <==> other in f.seen && t - f.seen[other] < ttlSec * SECOND
  {
    hide SaveDue, Floored;
  }

  /** What a sweep drops: exactly the keys accepted more than `ttlSec` seconds ago. */
  lemma SweepDrops<K>(f: Filter<K>, ttlSec: int, now: int, ok: bool, savedAt: int, key: K)
    ensures var g := Step(f, ttlSec, Sweep(now, ok, savedAt));
            && (key in g.seen <==> key in f.seen && now - f.seen[key] <= ttlSec * SECOND)
            && (key in g.seen ==> g.seen[key] == f.seen[key])
  {
    hide Floored;
  }

  /** What marking a new body drops: exactly the others marked `ttlSec` seconds ago or more. */
  lemma MarkDrops<K>(f: Filter<K>, ttlSec: int, e: Event<K>, key: K)
    requires ttlSec > 0 && e.Mark? && !Remembers(f.seen, ttlSec, e.now, e.key) && key != e.key
    ensures key in Step(f, ttlSec, e).seen <==> key in f.seen && e.now - f.seen[key] < ttlSec * SECOND
  {
    hide SaveDue, Floored;
  }

  // ---- When the file is written ----

  /** The operation loses no key. */
  predicate DropsNothing<K>(f: Filter<K>, ttlSec: int, e: Event<K>) {
    f.seen.Keys <= Step(f, ttlSec, e).seen.Keys
  }

  lemma SameKeysSameSize<K>(m: map<K, int>, n: map<K, int>)
    ensures m.Keys == n.Keys ==> |m| == |n|
  {
    assert |m| == |m.Keys| && |n| == |n.Keys|;
  }

  lemma KeepsAll<K>(f: Filter<K>, ttlSec: int, e: Event<K>)
    requires ttlSec > 0 && !e.Crash? && DropsNothing(f, ttlSec, e)
    ensures e.Sweep? ==> |Unexpired(f.seen, ttlSec, e.now)| == |f.seen|
    ensures e.Mark? && !Remembers(f.seen, ttlSec, e.now, e.key) ==>
              |Inside(f.seen[e.key := e.now], ttlSec, e.now)| == |f.seen[e.key := e.now]|
  {
    hide SaveDue, Floored;
    if e.Sweep? {
      var kept := Unexpired(f.seen, ttlSec, e.now);
      assert Step(f, ttlSec, e).seen == kept;
      assert kept.Keys == f.seen.Keys;
      SameKeysSameSize(kept, f.seen);
    } else if e.Mark? && !Remembers(f.seen, ttlSec, e.now, e.key) {
      var seen := f.seen[e.key := e.now];
      var kept := Inside(seen, ttlSec, e.now);
      assert Step(f, ttlSec, e).seen == kept && e.key in kept;
      assert kept.Keys == seen.Keys;
      SameKeysSameSize(kept, seen);
    }
  }

  /** Within 30 seconds of a save, an operation that loses no key writes nothing. */
  lemma NotWrittenWithin<K>(f: Filter<K>, ttlSec: int, e: Event<K>)
    requires ttlSec > 0 && !e.Crash? && DropsNothing(f, ttlSec, e)
    requires f.lastSave.Some? && e.now < f.lastSave.value + 30 * SECOND
    ensures Step(f, ttlSec, e).disk == f.disk && Step(f, ttlSec, e).lastSave == f.lastSave
  {
    KeepsAll(f, ttlSec, e);
  }

  /** An acceptance that comes later, or is the first of the process, writes the whole table in whole
      seconds, if the save succeeds. */
  lemma WrittenWhenDue<K>(f: Filter<K>, ttlSec: int, e: Event<K>)
    requires Asks(e) && !Remembers(f.seen, ttlSec, e.now, e.key) && e.ok
    requires f.lastSave.None? || e.now >= f.lastSave.value + 30 * SECOND
    ensures var g := Step(f, ttlSec, e);
            && g.lastSave == Some(e.savedAt) && g.disk.Keys == g.seen.Keys
            && forall k :: k in g.seen ==> g.disk[k] == g.seen[k] / SECOND
  {
  }

  /** A new process knows of no save: its first acceptance writes the file. */
  lemma RestartThenWrites<K>(f: Filter<K>, ttlSec: int, now: int, e: Event<K>)
    requires var g := Restart(f, ttlSec, now); Asks(e) && !Remembers(g.seen, ttlSec, e.now, e.key) && e.ok
    ensures Step(Restart(f, ttlSec, now), ttlSec, e).lastSave == Some(e.savedAt)
  {
    WrittenWhenDue(Restart(f, ttlSec, now), ttlSec, e);
  }

  /** An operation that loses a key writes what is left, if the save succeeds; a save that fails
      writes nothing. */
  lemma WrittenWhenDropped<K>(f: Filter<K>, ttlSec: int, e: Event<K>)
    requires ttlSec > 0 && !e.Crash?
    ensures var g := Step(f, ttlSec, e);
            && (e.ok && !DropsNothing(f, ttlSec, e) ==>
                  && g.lastSave == Some(e.savedAt) && g.disk.Keys == g.seen.Keys
                  && forall k :: k in g.seen ==> g.disk[k] == g.seen[k] / SECOND)
            && (!e.ok ==> g.disk == f.disk && g.lastSave == f.lastSave)
  {
    if e.Sweep? {
      NotSmaller(f.seen, Unexpired(f.seen, ttlSec, e.now));
    } else if e.Mark? {
      var seen := f.seen[e.key := e.now];
      NotSmaller(seen, Inside(seen, ttlSec, e.now));
    }
  }

  predicate Writes<K>(f: Filter<K>, ttlSec: int, e: Event<K>) {
    Step(f, ttlSec, e).disk != f.disk || Step(f, ttlSec, e).lastSave != f.lastSave
  }

  /** When the operations of a run wrote the file. */
  function WriteTimes<K>(f: Filter<K>, ttlSec: int, events: seq<Event<K>>): seq<int>
    decreases |events|
  {
    if events == [] then []
    else
      (if Writes(f, ttlSec, events[0]) then [events[0].savedAt] else [])
      + WriteTimes(Step(f, ttlSec, events[0]), ttlSec, events[1..])
  }

  predicate LosesNothing<K>(f: Filter<K>, ttlSec: int, events: seq<Event<K>>)
    decreases |events|
  {
    events == [] ||
    (&& !events[0].Crash? && DropsNothing(f, ttlSec, events[0])
     && LosesNothing(Step(f, ttlSec, events[0]), ttlSec, events[1..]))
  }

  lemma WritingSaves<K>(f: Filter<K>, ttlSec: int, e: Event<K>)
    requires !e.Crash?
    ensures Step(f, ttlSec, e).lastSave == if Writes(f, ttlSec, e) then Some(e.savedAt) else f.lastSave
  {
  }

  /** At least 30 seconds lie between the instants, and between `last` and the first. */
  predicate Spaced(times: seq<int>, last: Option<int>) {
    && (last.Some? ==> forall i :: 0 <= i < |times| ==> times[i] >= last.value + 30 * SECOND)
    && forall i, j :: 0 <= i < j < |times| ==> times[j] >= times[i] + 30 * SECOND
  }

  lemma SpacedMore(first: int, rest: seq<int>, last: Option<int>)
    requires Spaced(rest, Some(first)) && (last.Some? ==> first >= last.value + 30 * SECOND)
    ensures Spaced([first] + rest, last)
  {
    assert forall i :: 1 <= i < |rest| + 1 ==> ([first] + rest)[i] == rest[i-1];
  }

  /** The throttle: over any run of one process that loses no key, two writes lie at least 30 seconds
      apart, and the first at least that long after the save before the run. */
  lemma {:induction false} WritesThrottled<K>(f: Filter<K>, ttlSec: int, start: int, events: seq<Event<K>>)
    requires ttlSec > 0 && Clocked(events, start) && LosesNothing(f, ttlSec, events)
    ensures Spaced(WriteTimes(f, ttlSec, events), f.lastSave)
    decreases |events|
  {
    hide Step, Writes, DropsNothing, Spaced;
    if events == [] {
      NoneSpaced(f.lastSave);
    } else {
      var e := events[0];
      WritingSaves(f, ttlSec, e);
      WritesThrottled(Step(f, ttlSec, e), ttlSec, e.savedAt, events[1..]);
      var rest := WriteTimes(Step(f, ttlSec, e), ttlSec, events[1..]);
      if Writes(f, ttlSec, e) {
        if f.lastSave.Some? && e.now < f.lastSave.value + 30 * SECOND { WritesNothing(f, ttlSec, e); }
        SpacedMore(e.savedAt, rest, f.lastSave);
      } else {
        assert [] + rest == rest;
      }
    }
  }

  lemma NoneSpaced(last: Option<int>)
    ensures Spaced([], last)
  {
  }

  lemma WritesNothing<K>(f: Filter<K>, ttlSec: int, e: Event<K>)
    requires ttlSec > 0 && !e.Crash? && DropsNothing(f, ttlSec, e)
    requires f.lastSave.Some? && e.now < f.lastSave.value + 30 * SECOND
    ensures !Writes(f, ttlSec, e)
  {
    hide Step;
    NotWrittenWithin(f, ttlSec, e);
  }

  // ---- What a crash can lose ----

  predicate OnDisk<K>(f: Filter<K>, key: K)
    requires key in f.seen
  {
    key in f.disk && f.disk[key] == UnixSeconds(f.seen[key])
  }

  /** Every remembered key is in the file, rounded down, or newer than the last save. */
  ghost predicate Durable<K>(f: Filter<K>, now: int) {
    && (f.lastSave.Some? ==> f.lastSave.value <= now)
    && forall k :: k in f.seen ==> OnDisk(f, k) || (f.lastSave.Some? ==> f.lastSave.value <= f.seen[k])
  }

  /** The same, and what the file misses was accepted less than 30 seconds after the last save. */
  ghost predicate DurableWithin<K>(f: Filter<K>, now: int) {
    && (f.lastSave.Some? ==> f.lastSave.value <= now)
    && forall k :: k in f.seen ==>
         || OnDisk(f, k)
         || (f.lastSave.Some? && f.lastSave.value <= f.seen[k] < f.lastSave.value + SAVE_INTERVAL)
  }

  lemma SavedOnDisk<K>(f: Filter<K>, savedAt: int)
    ensures forall k :: k in f.seen ==> OnDisk(Save(f, true, savedAt), k)
  {
  }

  /** Recording a key and keeping part of the table, with a save that is due after 30 seconds and
      forced when something was dropped. */
  lemma DurableUpdate<K>(f: Filter<K>, now: int, seen: map<K, int>, force: bool, ok: bool, savedAt: int, g: Filter<K>)
    requires now <= savedAt
    requires forall k :: k in seen ==> seen[k] == now || (k in f.seen && seen[k] == f.seen[k])
    requires g == var f' := f.(seen := seen); if force || SaveDue(f.lastSave, now) then Save(f', ok, savedAt) else f'
    ensures Durable(f, now) ==> Durable(g, savedAt)
    ensures DurableWithin(f, now) && ok ==> DurableWithin(g, savedAt)
  {
    SavedOnDisk(f.(seen := seen), savedAt);
  }

  lemma DurableStep<K>(f: Filter<K>, ttlSec: int, now: int, e: Event<K>)
    requires ttlSec > 0 && now <= e.now <= e.savedAt
    ensures Durable(f, now) ==> Durable(Step(f, ttlSec, e), e.savedAt)
    ensures DurableWithin(f, now) && e.ok ==> DurableWithin(Step(f, ttlSec, e), e.savedAt)
  {
    var g := Step(f, ttlSec, e);
    match e {
      case Accept(n, key, ok, savedAt) =>
        if g != f { DurableUpdate(f, n, f.seen[key := n], false, ok, savedAt, g); }
      case Mark(n, key, ok, savedAt) =>
        var seen := f.seen[key := n];
        var kept := Inside(seen, ttlSec, n);
        if g != f { DurableUpdate(f, n, kept, |kept| < |seen|, ok, savedAt, g); }
      case Sweep(n, ok, savedAt) =>
        var kept := Unexpired(f.seen, ttlSec, n);
        NotSmaller(f.seen, kept);
        if |kept| < |f.seen| { DurableUpdate(f, n, kept, true, ok, savedAt, g); }
      case Crash(n, _, _) =>
    }
  }

  /** A part of a map that is not smaller is all of it. */
  lemma NotSmaller<K>(m: map<K, int>, part: map<K, int>)
    requires forall k :: k in part ==> k in m && part[k] == m[k]
    ensures |part| <= |m|
    ensures |part| == |m| ==> part == m
  {
    SubsetCardinality(part.Keys, m.Keys);
    assert |part| == |part.Keys| && |m| == |m.Keys|;
    if |part| == |m| { assert part.Keys == m.Keys; }
  }

  lemma {:induction false} SubsetCardinality<K>(a: set<K>, b: set<K>)
    requires a <= b
    ensures |a| <= |b| && (|a| == |b| ==> a == b)
  {
    if k :| k in a {
      SubsetCardinality(a - {k}, b - {k});
    }
  }

  lemma {:induction false} DurableRun<K>(f: Filter<K>, ttlSec: int, now: int, events: seq<Event<K>>) returns (end: int)
    requires ttlSec > 0 && Clocked(events, now)
    ensures now <= end && forall i :: 0 <= i < |events| ==> events[i].savedAt <= end
    ensures Durable(f, now) ==> Durable(Run(f, ttlSec, events), end)
    ensures DurableWithin(f, now) && (forall i :: 0 <= i < |events| ==> events[i].ok) ==>
              DurableWithin(Run(f, ttlSec, events), end)
    decreases |events|
  {
    if events == [] {
      end := now;
    } else {
      var e := events[0];
      DurableStep(f, ttlSec, now, e);
      end := DurableRun(Step(f, ttlSec, e), ttlSec, e.savedAt, events[1..]);
    }
  }

  /** After a crash at `now`, a key is refused exactly while the file has it and `ttl` has not
      passed since the whole second noted there. */
  lemma RestartRemembers<K>(f: Filter<K>, ttlSec: int, now: int, key: K, t: int)
    requires ttlSec > 0 && now <= t
    ensures Remembers(Restart(f, ttlSec, now).seen, ttlSec, t, key)
            <==> key in f.disk && t < f.disk[key] * SECOND + Ttl(ttlSec)
  {
    if key in f.disk && key !in Load(f.disk, ttlSec, now) { LoadDropsExpired(f.disk, ttlSec, now, key); }
  }

  /** What a save is for: after a crash at `now` exactly the saved keys are refused, each for its
      lifetime since the whole second of its acceptance; a save that failed makes no difference. */
  lemma SavedSurvives<K>(f: Filter<K>, ttlSec: int, savedAt: int, now: int, key: K, t: int)
    requires ttlSec > 0 && now <= t
    ensures Remembers(Restart(Save(f, true, savedAt), ttlSec, now).seen, ttlSec, t, key)
            <==> key in f.seen && t < UnixSeconds(f.seen[key]) * SECOND + Ttl(ttlSec)
    ensures Restart(Save(f, false, savedAt), ttlSec, now) == Restart(f, ttlSec, now)
  {
    hide Restart;
    RestartRemembers(Save(f, true, savedAt), ttlSec, now, key, t);
  }

  /** Over any run from any file in which every save succeeds, crashes included: a key that the
      process remembers is kept across the next crash, except one accepted less than 30 seconds
      after the last save. */
  lemma CrashLosesRecentOnly<K>(
      disk: map<K, int>, ttlSec: int, start: int, events: seq<Event<K>>, now: int, key: K, t: int)
    requires ttlSec > 0 && Clocked(events, start)
    requires forall i :: 0 <= i < |events| ==> events[i].ok
    requires forall i :: 0 <= i < |events| ==> events[i].savedAt <= now
    requires start <= now <= t
    ensures var f := Run(Restart(Filter(map[], None, disk), ttlSec, start), ttlSec, events);
            key in f.seen ==>
              || (f.lastSave.Some? && f.lastSave.value <= f.seen[key] < f.lastSave.value + SAVE_INTERVAL)
              || (Remembers(Restart(f, ttlSec, now).seen, ttlSec, t, key)
                  <==> t < UnixSeconds(f.seen[key]) * SECOND + Ttl(ttlSec))
  {
    var f0 := Restart(Filter(map[], None, disk), ttlSec, start);
    var end := DurableRun(f0, ttlSec, start, events);
    var f := Run(f0, ttlSec, events);
    if key in f.seen && OnDisk(f, key) { RestartRemembers(f, ttlSec, now, key, t); }
  }

  // ---- The objects ----

  /** The ledger file. */
  class LedgerFile<K(==)> {
    var entries: map<K, int>

    constructor ()
      ensures entries == map[]
    {
      entries := map[];
    }

    /** `dedupfile.Save`: all or nothing. */
    method Replace(all: map<K, int>, ok: bool)
      modifies this
      ensures entries == if ok then all else old(entries)
    {
      if ok { entries := all; }
    }

    method ReadRecent(ttlSec: int, now: int) returns (out: map<K, int>)
      ensures out == Load(entries, ttlSec, now)
    {
      out := map[];
      var rest := entries.Keys;
      while rest != {}
        invariant rest <= entries.Keys
        invariant out == map k | k in Load(entries, ttlSec, now) && k !in rest :: entries[k]
        decreases |rest|
      {
        var k := Pick(rest);
        if ttlSec <= 0 || UnixSeconds(now) - entries[k] < ttlSec {
          out := out[k := entries[k]];
        }
        rest := rest - {k};
      }
    }
  }

  const DEFAULT_TTL: int := 10 * 60

  class UpdateDeduper {
    var seen: map<int, int>
    const ttlSec: int
    const file: LedgerFile?<int>
    var lastSave: Option<int>

    ghost predicate Valid() { ttlSec > 0 }

    ghost function Contents(): Filter<int>
      reads this, file
    {
      Filter(seen, lastSave, if file == null then map[] else file.entries)
    }

    constructor (file: LedgerFile?<int>, ttlSec: int, now: int)
      ensures Valid() && this.file == file
      ensures this.ttlSec == if ttlSec <= 0 then 10 * 60 else ttlSec
      ensures Contents() == Restart(Filter(map[], None, if file == null then map[] else file.entries), ttlSec, now)
    {
      this.ttlSec := if ttlSec <= 0 then DEFAULT_TTL else ttlSec;
      this.file := file;
      seen, lastSave := map[], None;
      new;
      if file != null {
        var raw := file.ReadRecent(ttlSec, now);
        var rest := raw.Keys;
        while rest != {}
          invariant rest <= raw.Keys
          invariant seen == map k | k in raw && k !in rest :: raw[k] * SECOND
          invariant lastSave == None
          decreases |rest|
        {
          var k := Pick(rest);
          seen := seen[k := raw[k] * SECOND];
          rest := rest - {k};
        }
      }
    }

    /** `savedAt` is the clock reading after the write. */
    method SaveLocked(ok: bool, savedAt: int)
      requires Valid()
      modifies this`lastSave, file
      ensures Contents() == Save(old(Contents()), ok && file != null, savedAt)
    {
      if file == null { return; }
      var entries := map[];
      var rest := seen.Keys;
      while rest != {}
        modifies {}
        invariant rest <= seen.Keys
        invariant entries == map k | k in seen && k !in rest :: UnixSeconds(seen[k])
        decreases |rest|
      {
        var k := Pick(rest);
        entries := entries[k := UnixSeconds(seen[k])];
        rest := rest - {k};
      }
      assert entries == Floored(seen);
      file.Replace(entries, ok);
      if ok { lastSave := Some(savedAt); }
    }

    method Accept(now: int, updateId: int, ok: bool, savedAt: int) returns (isNew: bool)
      requires Valid()
      modifies this, file
      ensures Valid()
      ensures isNew == !Remembers(old(seen), ttlSec, now, updateId)
      ensures Contents() == Step(old(Contents()), ttlSec, Event.Accept(now, updateId, ok && file != null, savedAt))
    {
      if updateId in seen && now - seen[updateId] < ttlSec * SECOND { return false; }
      seen := seen[updateId := now];
      if file != null && (lastSave.None? || now - lastSave.value >= SAVE_INTERVAL) {
        SaveLocked(ok, savedAt);
      }
      return true;
    }

    /** The loop of `prune` over the table. */
    method DropBefore(cutoff: int) returns (removed: nat)
      modifies this`seen
      ensures seen == map k | k in old(seen) && old(seen)[k] >= cutoff :: old(seen)[k]
      ensures removed == |old(seen)| - |seen|
    {
      removed := 0;
      var rest := seen.Keys;
      while rest != {}
        invariant rest <= seen.Keys <= old(seen).Keys
        invariant seen == map k | k in old(seen) && (k in rest || old(seen)[k] >= cutoff) :: old(seen)[k]
        invariant removed == |old(seen)| - |seen|
        decreases |rest|
      {
        var k := Pick(rest);
        if seen[k] < cutoff {
          seen := seen - {k};
          removed := removed + 1;
        }
        rest := rest - {k};
      }
    }

    method Prune(now: int, ok: bool, savedAt: int) returns (removed: nat)
      requires Valid()
      modifies this, file
      ensures Valid()
      ensures removed == |old(seen)| - |seen|
      ensures Contents() == Step(old(Contents()), ttlSec, Sweep(now, ok && file != null, savedAt))
    {
      removed := DropBefore(now - ttlSec * SECOND);
      assert seen == Unexpired(old(seen), ttlSec, now);
      if removed > 0 { SaveLocked(ok, savedAt); }
    }
  }

  const REPLAY_WINDOW: int := 24 * 60 * 60

  /** The filter of webhook bodies, keyed by their fingerprints. */
  class WebhookDedup {
    var seen: map<string, int>
    const file: LedgerFile?<string>
    var lastSave: Option<int>

    ghost function Contents(): Filter<string>
      reads this, file
    {
      Filter(seen, lastSave, if file == null then map[] else file.entries)
    }

    constructor (file: LedgerFile?<string>, now: int)
      ensures this.file == file
      ensures Contents()
              == Restart(Filter(map[], None, if file == null then map[] else file.entries), REPLAY_WINDOW, now)
    {
      this.file := file;
      seen, lastSave := map[], None;
      new;
      if file != null {
        var raw := file.ReadRecent(REPLAY_WINDOW, now);
        seen := map k | k in raw :: raw[k] * SECOND;
      }
    }

    method SaveLocked(ok: bool, savedAt: int)
      modifies this`lastSave, file
      ensures Contents() == Save(old(Contents()), ok && file != null, savedAt)
    {
      if file == null { return; }
      file.Replace(map k | k in seen :: UnixSeconds(seen[k]), ok);
      if ok { lastSave := Some(savedAt); }
    }

    /** The loop of `mark` over its table. */
    method DropOutside(all: map<string, int>, now: int) returns (kept: map<string, int>, pruned: bool)
      ensures kept == Inside(all, REPLAY_WINDOW, now)
      ensures pruned <==> |kept| < |all|
    {
      kept, pruned := all, false;
      var rest := all.Keys;
      while rest != {}
        invariant rest <= kept.Keys <= all.Keys
        invariant kept == map k | k in all && (k in rest || now - all[k] < Ttl(REPLAY_WINDOW)) :: all[k]
        invariant pruned <==> |kept| < |all|
        decreases |rest|
      {
        var k := Pick(rest);
        if now - kept[k] >= REPLAY_WINDOW * SECOND {
          NotSmaller(all, kept);
          kept := kept - {k};
          pruned := true;
        }
        rest := rest - {k};
      }
    }

    /** Besides the answer: after a new body, every entry left is inside the window. */
    method Mark(now: int, key: string, ok: bool, savedAt: int) returns (isNew: bool)
      modifies this, file
      ensures isNew <==> key !in old(seen) || now - old(seen)[key] >= 24 * 60 * 60 * SECOND
      ensures isNew ==> key in seen && forall k :: k in seen ==> now - seen[k] < Ttl(REPLAY_WINDOW)
      ensures Contents() == Step(old(Contents()), REPLAY_WINDOW, Event.Mark(now, key, ok && file != null, savedAt))
    {
      if key in seen && now - seen[key] < REPLAY_WINDOW * SECOND { return false; }
      seen := seen[key := now];
      var pruned;
      seen, pruned := DropOutside(seen, now);
      if file != null && (pruned || lastSave.None? || now - lastSave.value >= SAVE_INTERVAL) {
        SaveLocked(ok, savedAt);
      }
      return true;
    }
  }
}

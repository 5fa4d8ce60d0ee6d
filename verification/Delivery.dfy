/** The delivery of Telegram updates by polling: the loop of `StartPolling`, `processPollBatch`
    (internal/bot/poll.go) and `dispatchUpdates` with its workers (internal/bot/poll_dedup.go),
    across crashes of the process. */
module Delivery {
  import opened Basics
  import opened Tally
  import opened Dedup

  const MAX_WORKERS: nat := 20
  const TTL_SEC: int := 24 * 60 * 60

  /** A worker goroutine.  When its handler has returned or panicked, the deferred function gives
      the slot back, then signs off from the wait group. */
  datatype Worker =
    | Running(id: int)
    | Ended(id: int, panicked: bool)
    | SlotFreed(id: int, panicked: bool)
    | Gone(id: int, panicked: bool)

  /** Where the polling goroutine stands; `next` indexes the update under consideration. */
  datatype Phase =
    | Idle
    | Dispatching(batch: seq<int>, next: nat, maxId: int)   // about to ask the filter about batch[next]
    | SlotWanted(batch: seq<int>, next: nat, maxId: int)    // accepted, about to take a slot
    | SlotHeld(batch: seq<int>, next: nat, maxId: int)      // about to start the worker
    | Draining(batch: seq<int>, maxId: int)                 // about to wait for all workers

  /** The last five fields record the past: update ids whose handlers have ended (in any process),
      ids that the ledger file had when the process that accepted them died with them in hand, or
      when the first process began, and, for the current process, ids delivered by the server, ids of
      completed batches, and whether the server returned only ids from `offset` on. */
  datatype State = State(
    offset: int, filter: Filter<int>, phase: Phase, sem: nat, wg: int, workers: seq<Worker>,
    ended: set<int>, inherited: set<int>, delivered: set<int>, passed: set<int>, honest: bool)

  datatype Move =
    | Poll(batch: seq<int>)
    | Consider(now: int, ok: bool, savedAt: int)
    | TakeSlot
    | Spawn
    | EndOfBatch
    | Return
    | Finish(w: nat, panicked: bool)
    | FreeSlot(w: nat)
    | SignOff(w: nat)
    | PruneLedger(now: int, ok: bool, savedAt: int)
    | Restarted(now: int)

  function Max(a: int, b: int): int { if a >= b then a else b }

  predicate Enabled(s: State, m: Move) {
    match m
    case Poll(batch) => s.phase.Idle? && batch != []
    case Consider(_, _, _) => s.phase.Dispatching? && s.phase.next < |s.phase.batch|
    case TakeSlot => s.phase.SlotWanted? && s.sem < MAX_WORKERS
    case Spawn => s.phase.SlotHeld? && s.phase.next < |s.phase.batch|
    case EndOfBatch => s.phase.Dispatching? && s.phase.next == |s.phase.batch|
    case Return => s.phase.Draining? && s.wg == 0
    case Finish(w, _) => w < |s.workers| && s.workers[w].Running?
    case FreeSlot(w) => w < |s.workers| && s.workers[w].Ended? && s.sem > 0
    case SignOff(w) => w < |s.workers| && s.workers[w].SlotFreed?
    case PruneLedger(_, _, _) => true
    case Restarted(_) => true
  }

  function Considered(s: State, now: int, ok: bool, savedAt: int): State
    requires Enabled(s, Consider(now, ok, savedAt))
  {
    var id := s.phase.batch[s.phase.next];
    var maxId := Max(id, s.phase.maxId);
    if Remembers(s.filter.seen, TTL_SEC, now, id)
    then s.(phase := Dispatching(s.phase.batch, s.phase.next + 1, maxId))
    else s.(phase := SlotWanted(s.phase.batch, s.phase.next, maxId),
            filter := Step(s.filter, TTL_SEC, Accept(now, id, ok, savedAt)))
  }

  function Apply(s: State, m: Move): State
    requires Enabled(s, m)
  {
    match m
    case Poll(batch) =>
      var ids := set id | id in batch;
      s.(phase := Dispatching(batch, 0, 0), wg := 0, delivered := s.delivered + ids,
         honest := s.honest && forall id | id in ids :: id >= s.offset)
    case Consider(now, ok, savedAt) => Considered(s, now, ok, savedAt)
    case TakeSlot => s.(phase := SlotHeld(s.phase.batch, s.phase.next, s.phase.maxId), sem := s.sem + 1)
    case Spawn =>
      s.(phase := Dispatching(s.phase.batch, s.phase.next + 1, s.phase.maxId), wg := s.wg + 1,
         workers := s.workers + [Running(s.phase.batch[s.phase.next])])
    case EndOfBatch => s.(phase := Draining(s.phase.batch, s.phase.maxId))
    case Return =>
      s.(phase := Idle, offset := if s.phase.maxId > 0 then s.phase.maxId + 1 else s.offset,
         passed := s.passed + set id | id in s.phase.batch)
    case Finish(w, panicked) =>
      s.(workers := s.workers[w := Ended(s.workers[w].id, panicked)], ended := s.ended + {s.workers[w].id})
    case FreeSlot(w) =>
      s.(workers := s.workers[w := SlotFreed(s.workers[w].id, s.workers[w].panicked)], sem := s.sem - 1)
    case SignOff(w) =>
      s.(workers := s.workers[w := Gone(s.workers[w].id, s.workers[w].panicked)], wg := s.wg - 1)
    case PruneLedger(now, ok, savedAt) => s.(filter := Step(s.filter, TTL_SEC, Sweep(now, ok, savedAt)))
    case Restarted(now) =>
      State(0, Restart(s.filter, TTL_SEC, now), Idle, 0, 0, [],
            s.ended, s.inherited + InHand(s) * s.filter.disk.Keys, {}, {}, true)
  }

  /** A process started with the ledger file `disk`. */
  function Started(disk: map<int, int>, now: int): State {
    State(0, Restart(Filter(map[], None, disk), TTL_SEC, now), Idle, 0, 0, [], {}, disk.Keys, {}, {}, true)
  }

  ghost predicate Runs(s: State, moves: seq<Move>, t: State)
    decreases |moves|
  {
    if moves == [] then t == s
    else Enabled(s, moves[0]) && Runs(Apply(s, moves[0]), moves[1..], t)
  }

  // ---- The invariant ----

  /** Accepted updates whose handlers have not ended. */
  function InHand(s: State): set<int> {
    (set w | 0 <= w < |s.workers| && s.workers[w].Running? :: s.workers[w].id)
    + (if (s.phase.SlotWanted? || s.phase.SlotHeld?) && s.phase.next < |s.phase.batch|
       then {s.phase.batch[s.phase.next]} else {})
  }

  function Covered(s: State): set<int> {
    s.ended + s.inherited + InHand(s)
  }

  function SlotOf(w: Worker): nat { if w.Running? || w.Ended? then 1 else 0 }

  function PresenceOf(w: Worker): nat { if w.Gone? then 0 else 1 }

  function RunningOf(w: Worker): nat { if w.Running? then 1 else 0 }

  /** The semaphore counts exactly the workers that have not given their slot back. */
  ghost predicate SlotsExact(s: State) {
    s.sem == Sum(s.workers, SlotOf) + (if s.phase.SlotHeld? then 1 else 0) <= MAX_WORKERS
  }

  ghost predicate WaitExact(s: State) {
    s.wg == Sum(s.workers, PresenceOf) && (s.phase.Idle? ==> s.wg == 0)
  }

  /** How much of the batch has been considered. */
  function Done(p: Phase): nat {
    if p.Idle? then 0 else if p.Draining? then |p.batch| else p.next
  }

  function Batch(p: Phase): seq<int> {
    if p.Idle? then [] else p.batch
  }

  ghost predicate BatchInv(s: State) {
    && Done(s.phase) <= |Batch(s.phase)|
    && (s.phase.SlotWanted? || s.phase.SlotHeld? ==>
          s.phase.next < |s.phase.batch| && s.phase.batch[s.phase.next] <= s.phase.maxId)
    && (forall i :: 0 <= i < Done(s.phase) ==> s.phase.batch[i] in Covered(s) && s.phase.batch[i] <= s.phase.maxId)
    && (!s.phase.Idle? ==> s.phase.maxId == 0 || (s.phase.maxId > 0 && s.phase.maxId in s.phase.batch))
  }

  ghost predicate LedgerInv(s: State) {
    && s.filter.seen.Keys <= Covered(s)
    && s.filter.disk.Keys <= Covered(s)
  }

  ghost predicate PassedInv(s: State) {
    && s.passed <= s.ended + s.inherited
    && (s.honest ==> forall id :: id in s.delivered ==>
          id in s.passed || (id in Batch(s.phase) && id >= s.offset))
  }

  /** The offset is just behind an id of a completed batch. */
  ghost predicate OffsetInv(s: State) {
    s.offset == 0 || s.offset - 1 in s.passed
  }

  ghost predicate Inv(s: State) {
    SlotsExact(s) && WaitExact(s) && BatchInv(s) && LedgerInv(s) && PassedInv(s) && OffsetInv(s)
  }

  lemma InvStarted(disk: map<int, int>, now: int)
    ensures Inv(Started(disk, now))
  {
  }

  lemma SlotsStep(s: State, m: Move)
    requires Inv(s) && Enabled(s, m)
    ensures SlotsExact(Apply(s, m))
  {
    hide LedgerInv, BatchInv, PassedInv, WaitExact, Step, Restart, Remembers, InHand, Sum;
    match m
    case Finish(w, p) => SumUpdate(s.workers, SlotOf, w, Ended(s.workers[w].id, p));
    case FreeSlot(w) => SumUpdate(s.workers, SlotOf, w, SlotFreed(s.workers[w].id, s.workers[w].panicked));
    case SignOff(w) => SumUpdate(s.workers, SlotOf, w, Gone(s.workers[w].id, s.workers[w].panicked));
    case Spawn => SumAppend(s.workers, SlotOf, Running(s.phase.batch[s.phase.next]));
    case Restarted(_) => NoWorkers();
    case _ =>
  }

  lemma NoWorkers()
    ensures Sum([], SlotOf) == 0
  {
  }

  lemma WaitStep(s: State, m: Move)
    requires Inv(s) && Enabled(s, m)
    ensures WaitExact(Apply(s, m))
  {
    hide LedgerInv, BatchInv, PassedInv, SlotsExact, Step, Restart, Remembers, InHand;
    match m
    case Finish(w, p) => SumUpdate(s.workers, PresenceOf, w, Ended(s.workers[w].id, p));
    case FreeSlot(w) => SumUpdate(s.workers, PresenceOf, w, SlotFreed(s.workers[w].id, s.workers[w].panicked));
    case SignOff(w) =>
      SumUpdate(s.workers, PresenceOf, w, Gone(s.workers[w].id, s.workers[w].panicked));
      SumPositive(s.workers, PresenceOf);
    case Spawn => SumAppend(s.workers, PresenceOf, Running(s.phase.batch[s.phase.next]));
    case _ =>
  }

  lemma InHandSpawn(s: State)
    requires Inv(s) && Enabled(s, Spawn)
    ensures InHand(Apply(s, Spawn)) == InHand(s)
  {
    var t := Apply(s, Spawn);
    assert t.workers[|s.workers|].Running?;
    forall id | id in InHand(s) ensures id in InHand(t) {
      if w :| 0 <= w < |s.workers| && s.workers[w].Running? && s.workers[w].id == id {
        assert t.workers[w] == s.workers[w];
      } else {
        assert t.workers[|s.workers|].id == id;
      }
    }
  }

  lemma InHandUpdate(s: State, w: nat, x: Worker)
    requires w < |s.workers| && !x.Running? && x.id == s.workers[w].id
    ensures var t := s.(workers := s.workers[w := x]);
            InHand(t) <= InHand(s) <= InHand(t) + (if s.workers[w].Running? then {x.id} else {})
  {
    var t := s.(workers := s.workers[w := x]);
    forall id | id in InHand(s) && id !in (if s.workers[w].Running? then {x.id} else {}) ensures id in InHand(t) {
      if v :| 0 <= v < |s.workers| && s.workers[v].Running? && s.workers[v].id == id {
        assert v != w && t.workers[v] == s.workers[v];
      }
    }
  }

  function Handled(s: State): set<int> { s.ended + InHand(s) }

  /** The move accepts update `id`. */
  predicate Accepts(s: State, m: Move, id: int)
    requires Enabled(s, m)
  {
    m.Consider? && s.phase.batch[s.phase.next] == id && !Remembers(s.filter.seen, TTL_SEC, m.now, id)
  }

  /** Within a process, exactly what was accepted is in hand or has ended. */
  lemma HandledStep(s: State, m: Move, id: int)
    requires Inv(s) && Enabled(s, m) && !m.Restarted?
    ensures id in Handled(Apply(s, m)) <==> id in Handled(s) || Accepts(s, m, id)
  {
    hide Step, Remembers, SlotsExact, WaitExact, LedgerInv, PassedInv;
    match m
    case Spawn => InHandSpawn(s);
    case Finish(w, p) => FinishHandled(s, w, p);
    case FreeSlot(w) => InHandUpdate(s, w, SlotFreed(s.workers[w].id, s.workers[w].panicked));
    case SignOff(w) => InHandUpdate(s, w, Gone(s.workers[w].id, s.workers[w].panicked));
    case _ =>
  }

  lemma FinishHandled(s: State, w: nat, panicked: bool)
    requires Enabled(s, Finish(w, panicked))
    ensures Handled(Apply(s, Finish(w, panicked))) == Handled(s)
  {
    InHandUpdate(s, w, Ended(s.workers[w].id, panicked));
    assert s.workers[w].id in InHand(s);
  }

  lemma CoveredGrows(s: State, m: Move)
    requires Inv(s) && Enabled(s, m) && !m.Restarted?
    ensures Covered(s) <= Covered(Apply(s, m))
  {
    forall id | id in Covered(s) ensures id in Covered(Apply(s, m)) {
      HandledStep(s, m, id);
    }
  }

  lemma LedgerRestart(s: State, now: int)
    requires Inv(s)
    ensures LedgerInv(Apply(s, Restarted(now)))
  {
    hide Restart, SlotsExact, WaitExact, BatchInv, PassedInv;
    RestartKeys(s.filter, TTL_SEC, now);
  }

  lemma LedgerStep(s: State, m: Move)
    requires Inv(s) && Enabled(s, m)
    ensures LedgerInv(Apply(s, m))
  {
    hide SlotsExact, WaitExact, PassedInv, Step, Covered;
    if m.Restarted? {
      LedgerRestart(s, m.now);
    } else {
      CoveredGrows(s, m);
      match m
      case Consider(now, ok, savedAt) =>
        var id := s.phase.batch[s.phase.next];
        StepKeys(s.filter, TTL_SEC, Accept(now, id, ok, savedAt));
        if Apply(s, m).phase.SlotWanted? { AcceptedCovered(s, m); }
      case PruneLedger(now, ok, savedAt) => StepKeys(s.filter, TTL_SEC, Sweep(now, ok, savedAt));
      case _ =>
    }
  }

  /** An update is in hand from the moment it is accepted. */
  lemma AcceptedCovered(s: State, m: Move)
    requires m.Consider? && Enabled(s, m) && Apply(s, m).phase.SlotWanted?
    ensures s.phase.batch[s.phase.next] in Covered(Apply(s, m))
  {
  }

  lemma BatchStep(s: State, m: Move)
    requires Inv(s) && Enabled(s, m)
    ensures BatchInv(Apply(s, m))
  {
    if m.Restarted? { return; }
    CoveredGrows(s, m);
    if m.Spawn? {
      var t := Apply(s, m);
      assert t.workers[|s.workers|].Running? && t.workers[|s.workers|].id == s.phase.batch[s.phase.next];
    }
  }

  /** When the wait group is empty, nothing accepted is still unhandled. */
  lemma NothingInHand(s: State)
    requires Inv(s) && s.wg == 0 && !s.phase.SlotWanted? && !s.phase.SlotHeld?
    ensures InHand(s) == {}
  {
    SumPositive(s.workers, PresenceOf);
  }

  lemma PassedStep(s: State, m: Move)
    requires Inv(s) && Enabled(s, m)
    ensures PassedInv(Apply(s, m))
  {
    if m.Return? { NothingInHand(s); }
    var t := Apply(s, m);
    if m.Poll? && t.honest {
      forall id | id in t.delivered ensures id in t.passed || (id in Batch(t.phase) && id >= t.offset) {}
    }
  }

  lemma OffsetStep(s: State, m: Move)
    requires Inv(s) && Enabled(s, m)
    ensures OffsetInv(Apply(s, m))
  {
    hide LedgerInv, PassedInv, SlotsExact, WaitExact, Step, Restart, Remembers, InHand, Covered;
  }

  lemma InvStep(s: State, m: Move)
    requires Inv(s) && Enabled(s, m)
    ensures Inv(Apply(s, m))
  {
    OffsetStep(s, m);
    SlotsStep(s, m);
    WaitStep(s, m);
    BatchStep(s, m);
    LedgerStep(s, m);
    PassedStep(s, m);
  }

  lemma {:induction false} InvRun(s: State, moves: seq<Move>, t: State)
    requires Inv(s) && Runs(s, moves, t)
    ensures Inv(t)
    decreases |moves|
  {
    if moves != [] {
      InvStep(s, moves[0]);
      InvRun(Apply(s, moves[0]), moves[1..], t);
    }
  }

  // ---- Safety over every run ----

  /** Never more than twenty handlers run at once. */
  lemma BoundedConcurrency(disk: map<int, int>, start: int, moves: seq<Move>, t: State)
    requires Runs(Started(disk, start), moves, t)
    ensures Sum(t.workers, RunningOf) <= 20
  {
    InvStarted(disk, start);
    InvRun(Started(disk, start), moves, t);
    SumBounds(t.workers, RunningOf, SlotOf);
  }

  lemma {:induction false} NoCrashInheritsNothing(s: State, moves: seq<Move>, t: State)
    requires Runs(s, moves, t) && forall m :: m in moves ==> !m.Restarted?
    ensures t.inherited == s.inherited
    decreases |moves|
  {
    if moves != [] {
      NoCrashInheritsNothing(Apply(s, moves[0]), moves[1..], t);
    }
  }

  /** In a process that began with an empty ledger, the offset never passes an update whose
      handler has not ended: not one of a completed batch, and, if the server returns only ids
      from `offset` on, not one that was ever delivered. */
  lemma OffsetPassesHandledOnly(start: int, moves: seq<Move>, t: State)
    requires Runs(Started(map[], start), moves, t) && forall m :: m in moves ==> !m.Restarted?
    ensures t.passed <= t.ended
    ensures t.honest ==> forall id :: id in t.delivered && id < t.offset ==> id in t.ended
  {
    InvStarted(map[], start);
    InvRun(Started(map[], start), moves, t);
    NoCrashInheritsNothing(Started(map[], start), moves, t);
  }

  /** In any process, a completed batch leaves an update unhandled only if the ledger file had it,
      left there by an earlier process that had not handled it. */
  lemma UnhandledIsInherited(disk: map<int, int>, start: int, moves: seq<Move>, t: State)
    requires Runs(Started(disk, start), moves, t)
    ensures t.passed - t.ended <= t.inherited
  {
    InvStarted(disk, start);
    InvRun(Started(disk, start), moves, t);
  }

  /** A completed batch that has a positive id moves the offset to just behind its greatest id; any
      other leaves it alone.  It moves on exactly if some id was not below it. */
  lemma OffsetAdvances(s: State)
    requires Inv(s) && Enabled(s, Return)
    ensures var t := Apply(s, Return);
            && (forall id :: id in s.phase.batch && id > 0 ==> id < t.offset)
            && ((exists id :: id in s.phase.batch && id > 0) ==> t.offset - 1 in s.phase.batch)
            && ((forall id :: id in s.phase.batch ==> id <= 0) ==> t.offset == s.offset)
            && (t.offset > s.offset <==> exists id :: id in s.phase.batch && id > 0 && id >= s.offset)
  {
    var t := Apply(s, Return);
    forall id | id in s.phase.batch ensures id <= s.phase.maxId {
      var i :| 0 <= i < |s.phase.batch| && s.phase.batch[i] == id;
    }
    if t.offset > s.offset {
      assert s.phase.maxId in s.phase.batch;
    }
  }

  /** So in every process the offset confirms nothing beyond an id of a completed batch. */
  lemma OffsetConfirmsPassed(disk: map<int, int>, start: int, moves: seq<Move>, t: State)
    requires Runs(Started(disk, start), moves, t)
    ensures t.offset == 0 || t.offset - 1 in t.passed
  {
    InvStarted(disk, start);
    InvRun(Started(disk, start), moves, t);
  }

  /** `passed` are the ids of the batches completed by the current process. */
  lemma {:induction false} PassedIsCompleted(s: State, moves: seq<Move>, t: State)
    requires Runs(s, moves, t) && forall m :: m in moves ==> !m.Restarted?
    ensures t.passed == s.passed + Completed(s, moves)
    decreases |moves|
  {
    if moves != [] {
      PassedIsCompleted(Apply(s, moves[0]), moves[1..], t);
    }
  }

  function Completed(s: State, moves: seq<Move>): set<int>
    decreases |moves|
  {
    if moves == [] || !Enabled(s, moves[0]) then {}
    else (if moves[0].Return? then set id | id in s.phase.batch else {}) + Completed(Apply(s, moves[0]), moves[1..])
  }

  /** The dispatcher waits for a slot exactly while twenty are taken. */
  lemma WaitsWhenFull(s: State)
    requires Inv(s) && s.phase.SlotWanted?
    ensures !Enabled(s, TakeSlot) <==> Sum(s.workers, SlotOf) == 20
  {
  }

  /** Nothing else waits: an idle process takes any batch that is not empty, a handler can always end,
      also while the batch is dispatched, and the sweep and a crash can come at any time. */
  lemma NothingElseWaits(s: State, batch: seq<int>, w: nat, now: int, ok: bool, savedAt: int)
    ensures Enabled(s, Poll(batch)) <==> s.phase.Idle? && batch != []
    ensures w < |s.workers| && s.workers[w].Running? ==> Enabled(s, Finish(w, true)) && Enabled(s, Finish(w, false))
    ensures Enabled(s, PruneLedger(now, ok, savedAt)) && Enabled(s, Restarted(now))
  {
  }

  // ---- How often an update is accepted ----

  /** The moves of one process, with clock readings that never decrease. */
  predicate Life(moves: seq<Move>, last: int)
    decreases |moves|
  {
    moves == [] ||
    match moves[0]
    case Consider(now, _, savedAt) => last <= now <= savedAt && Life(moves[1..], savedAt)
    case PruneLedger(now, _, savedAt) => last <= now <= savedAt && Life(moves[1..], savedAt)
    case Restarted(_) => false
    case _ => Life(moves[1..], last)
  }

  function ClockAfter(m: Move, last: int): int {
    if m.Consider? || m.PruneLedger? then m.savedAt else last
  }

  /** When `id` is accepted. */
  function Acceptances(s: State, moves: seq<Move>, id: int): seq<int>
    decreases |moves|
  {
    if moves == [] || !Enabled(s, moves[0]) then []
    else (if Accepts(s, moves[0], id) then [moves[0].now] else []) + Acceptances(Apply(s, moves[0]), moves[1..], id)
  }

  /** The filter is asked about `id` at or after `from`. */
  predicate AskedFrom(s: State, moves: seq<Move>, id: int, from: int)
    decreases |moves|
  {
    && moves != [] && Enabled(s, moves[0])
    && ((moves[0].Consider? && s.phase.batch[s.phase.next] == id && moves[0].now >= from)
        || AskedFrom(Apply(s, moves[0]), moves[1..], id, from))
  }

  lemma RefusedMove(s: State, m: Move, id: int, until: int, last: int)
    requires Enabled(s, m) && Life([m], last) && RefusedUntil(s.filter.seen, TTL_SEC, id, until, last)
    ensures m.Consider? && s.phase.batch[s.phase.next] == id ==> (Accepts(s, m, id) <==> m.now >= until)
    ensures RefusedUntil(Apply(s, m).filter.seen, TTL_SEC, id,
                         if Accepts(s, m, id) then m.now + Ttl(TTL_SEC) else until, ClockAfter(m, last))
  {
    hide Remembers, Step, RefusedUntil;
    match m
    case Consider(now, ok, savedAt) =>
      var asked := s.phase.batch[s.phase.next];
      RefusedStep(s.filter, TTL_SEC, Accept(now, asked, ok, savedAt), id, until, last);
      StepOfRemembered(s.filter, now, asked, ok, savedAt);
    case PruneLedger(now, ok, savedAt) => RefusedStep(s.filter, TTL_SEC, Sweep(now, ok, savedAt), id, until, last);
    case _ =>
  }

  lemma StepOfRemembered(f: Filter<int>, now: int, id: int, ok: bool, savedAt: int)
    ensures Remembers(f.seen, TTL_SEC, now, id) ==> Step(f, TTL_SEC, Accept(now, id, ok, savedAt)) == f
  {
  }

  lemma LifeSplit(moves: seq<Move>, last: int)
    requires moves != [] && Life(moves, last)
    ensures Life([moves[0]], last) && Life(moves[1..], ClockAfter(moves[0], last)) && !moves[0].Restarted?
  {
  }

  lemma {:induction false} AcceptancesApart(s: State, moves: seq<Move>, id: int, until: int, last: int)
    requires Life(moves, last) && RefusedUntil(s.filter.seen, TTL_SEC, id, until, last)
    ensures var times := Acceptances(s, moves, id);
            && (forall i :: 0 <= i < |times| ==> times[i] >= until)
            && (forall i, j :: 0 <= i < j < |times| ==> times[i] + Ttl(TTL_SEC) <= times[j])
    ensures Acceptances(s, moves, id) != [] <==> AskedFrom(s, moves, id, until)
    decreases |moves|
  {
    hide Apply, RefusedUntil, Life, Enabled, Accepts;
    if moves != [] && Enabled(s, moves[0]) {
      LifeSplit(moves, last);
      RefusedMove(s, moves[0], id, until, last);
      AcceptsAsked(s, moves[0], id);
      var until' := if Accepts(s, moves[0], id) then moves[0].now + Ttl(TTL_SEC) else until;
      AcceptancesApart(Apply(s, moves[0]), moves[1..], id, until', ClockAfter(moves[0], last));
    }
  }

  lemma AcceptsAsked(s: State, m: Move, id: int)
    requires Enabled(s, m)
    ensures Accepts(s, m, id) ==> m.Consider? && s.phase.next < |s.phase.batch| && s.phase.batch[s.phase.next] == id
  {
  }

  function OfId(id: int): Worker -> nat { (w: Worker) => if w.id == id then 1 else 0 }

  /** Accepted, and waiting for its worker. */
  function Wanted(s: State, id: int): nat {
    if (s.phase.SlotWanted? || s.phase.SlotHeld?) && s.phase.next < |s.phase.batch| && s.phase.batch[s.phase.next] == id
    then 1 else 0
  }

  function WorkersOf(s: State, id: int): nat { Sum(s.workers, OfId(id)) + Wanted(s, id) }

  lemma WorkersMove(s: State, m: Move, id: int)
    requires Inv(s) && Enabled(s, m) && !m.Restarted?
    ensures WorkersOf(Apply(s, m), id) == WorkersOf(s, id) + if Accepts(s, m, id) then 1 else 0
  {
    hide Step, Remembers, SlotsExact, WaitExact, LedgerInv, PassedInv, Sum;
    match m
    case Finish(w, p) => SumUpdate(s.workers, OfId(id), w, Ended(s.workers[w].id, p));
    case FreeSlot(w) => SumUpdate(s.workers, OfId(id), w, SlotFreed(s.workers[w].id, s.workers[w].panicked));
    case SignOff(w) => SumUpdate(s.workers, OfId(id), w, Gone(s.workers[w].id, s.workers[w].panicked));
    case Spawn => SumAppend(s.workers, OfId(id), Running(s.phase.batch[s.phase.next]));
    case _ =>
  }

  /** Within a process every acceptance gives one worker, and what was accepted is in hand or has
      ended. */
  lemma {:induction false} LifeHandles(s: State, moves: seq<Move>, t: State, id: int, last: int)
    requires Inv(s) && Runs(s, moves, t) && Life(moves, last)
    ensures Inv(t) && WorkersOf(t, id) == WorkersOf(s, id) + |Acceptances(s, moves, id)|
    ensures id in Handled(t) <==> id in Handled(s) || Acceptances(s, moves, id) != []
    decreases |moves|
  {
    hide Apply, Inv, Life, Enabled, Accepts, Handled, WorkersOf;
    if moves != [] {
      var m := moves[0];
      LifeSplit(moves, last);
      InvStep(s, m);
      WorkersMove(s, m, id);
      HandledStep(s, m, id);
      LifeHandles(Apply(s, m), moves[1..], t, id, ClockAfter(m, last));
    }
  }

  /** At most once: in one process an update is accepted again only when a lifetime has passed, and
      it gets one worker for each acceptance. */
  lemma AtMostOncePerLifetime(disk: map<int, int>, start: int, moves: seq<Move>, t: State, id: int)
    requires Runs(Started(disk, start), moves, t) && Life(moves, start)
    ensures var times := Acceptances(Started(disk, start), moves, id);
            && (forall i, j :: 0 <= i < j < |times| ==> times[i] + 24 * 60 * 60 * SECOND <= times[j])
            && Sum(t.workers, OfId(id)) + Wanted(t, id) == |times|
  {
    var s := Started(disk, start);
    InvStarted(disk, start);
    LifeHandles(s, moves, t, id, start);
    var until := if id in s.filter.seen then s.filter.seen[id] + Ttl(TTL_SEC) else start;
    AcceptancesApart(s, moves, id, until, start);
  }

  // ---- A crash can lose an update ----

  /** The filter notes an update before its handler runs.  An update in hand at a crash is then
      refused by the next process exactly while the file still has it. */
  lemma InHandAtCrash(s: State, id: int, crash: int, t: int)
    requires Inv(s) && id in InHand(s) && crash <= t
    ensures var s' := Apply(s, Restarted(crash));
            && (id in s'.inherited <==> id in s.inherited || id in s.filter.disk) && id !in InHand(s')
            && (Remembers(s'.filter.seen, TTL_SEC, t, id)
                <==> id in s.filter.disk && t < s.filter.disk[id] * SECOND + Ttl(TTL_SEC))
  {
    RestartRemembers(s.filter, TTL_SEC, crash, id, t);
  }

  /** Until when the next process refuses `id`: while the file has it unexpired. */
  function Expiry(disk: map<int, int>, id: int, crash: int): int {
    if id in disk then disk[id] * SECOND + Ttl(TTL_SEC) else crash
  }

  lemma RestartRefuses(f: Filter<int>, crash: int, id: int)
    ensures var until := Expiry(f.disk, id, crash);
            RefusedUntil(Restart(f, TTL_SEC, crash).seen, TTL_SEC, id, until, crash)
  {
    if id in f.disk && id !in Load(f.disk, TTL_SEC, crash) { LoadDropsExpired(f.disk, TTL_SEC, crash, id); }
  }

  /** What becomes of an update that was in hand at a crash, over any run of the next process: when
      no batch is under way its handler has ended exactly if the process was asked about it at a
      time when the file no longer had it unexpired.  Before that it is refused, and a batch that
      is completed passes it unhandled. */
  lemma CrashVerdict(s: State, id: int, crash: int, moves: seq<Move>, t: State)
    requires Inv(s) && id in InHand(s) && id !in s.ended
    requires Runs(Apply(s, Restarted(crash)), moves, t) && Life(moves, crash) && t.phase.Idle?
    ensures id in t.ended <==> AskedFrom(Apply(s, Restarted(crash)), moves, id, Expiry(s.filter.disk, id, crash))
  {
    var s' := Apply(s, Restarted(crash));
    InvStep(s, Restarted(crash));
    LifeHandles(s', moves, t, id, crash);
    RestartRefuses(s.filter, crash, id);
    AcceptancesApart(s', moves, id, Expiry(s.filter.disk, id, crash), crash);
    NothingInHand(t);
    assert InHand(s') == {};
  }

  /** Update 7 is accepted, saved and started. */
  const FIRST_LIFE: seq<Move> := [Poll([7]), Consider(0, true, 0), TakeSlot, Spawn]

  /** The process dies before the handler ends; the next one gets update 7 again. */
  const SECOND_LIFE: seq<Move> :=
    [Restarted(SECOND), Poll([7]), Consider(2 * SECOND, true, 2 * SECOND), EndOfBatch, Return]

  const STARTED_SEVEN: State := State(
    0, Filter(map[7 := 0], Some(0), map[7 := 0]), Dispatching([7], 1, 7), 1, 1, [Running(7)], {}, {}, {7}, {}, true)

  const LOST_SEVEN: State := State(
    8, Filter(map[7 := 0], None, map[7 := 0]), Idle, 0, 0, [], {}, {7}, {7}, {7}, true)

  lemma RunOne(s: State, m: Move, rest: seq<Move>, t: State)
    requires Enabled(s, m) && Runs(Apply(s, m), rest, t)
    ensures Runs(s, [m] + rest, t)
  {
    assert ([m] + rest)[1..] == rest;
  }

  lemma {:induction false} RunBoth(s: State, first: seq<Move>, mid: State, rest: seq<Move>, t: State)
    requires Runs(s, first, mid) && Runs(mid, rest, t)
    ensures Runs(s, first + rest, t)
    decreases |first|
  {
    hide Enabled, Apply;
    if first == [] {
      assert first + rest == rest;
    } else {
      RunBoth(Apply(s, first[0]), first[1..], mid, rest, t);
      assert (first + rest)[1..] == first[1..] + rest;
    }
  }

  lemma FirstLife()
    ensures Runs(Started(map[], 0), FIRST_LIFE, STARTED_SEVEN)
  {
    var s0 := Started(map[], 0);
    var s1 := Apply(s0, Poll([7]));
    assert s1.filter == Filter(map[], None, map[]);
    var s2 := Apply(s1, Consider(0, true, 0));
    assert s2.filter == Filter(map[7 := 0], Some(0), map[7 := 0]);
    var s3 := Apply(s2, TakeSlot);
    RunOne(s3, Spawn, [], STARTED_SEVEN);
    RunOne(s2, TakeSlot, [Spawn], STARTED_SEVEN);
    RunOne(s1, Consider(0, true, 0), [TakeSlot, Spawn], STARTED_SEVEN);
    RunOne(s0, Poll([7]), [Consider(0, true, 0), TakeSlot, Spawn], STARTED_SEVEN);
  }

  lemma SecondLife()
    ensures Runs(STARTED_SEVEN, SECOND_LIFE, LOST_SEVEN)
  {
    var again := Consider(2 * SECOND, true, 2 * SECOND);
    var s1 := Apply(STARTED_SEVEN, Restarted(SECOND));
    assert s1.filter.seen == map[7 := 0];
    assert STARTED_SEVEN.workers[0].Running? && s1.inherited == {7};
    var s2 := Apply(s1, Poll([7]));
    var s3 := Apply(s2, again);
    var s4 := Apply(s3, EndOfBatch);
    RunOne(s4, Return, [], LOST_SEVEN);
    RunOne(s3, EndOfBatch, [Return], LOST_SEVEN);
    RunOne(s2, again, [EndOfBatch, Return], LOST_SEVEN);
    RunOne(s1, Poll([7]), [again, EndOfBatch, Return], LOST_SEVEN);
    RunOne(STARTED_SEVEN, Restarted(SECOND), [Poll([7]), again, EndOfBatch, Return], LOST_SEVEN);
  }

  /** So the guarantee of `OffsetPassesHandledOnly` fails across a crash: here the offset passes
      update 7, whose handler never ended. */
  lemma CrashLosesUpdate()
    ensures Runs(Started(map[], 0), FIRST_LIFE + SECOND_LIFE, LOST_SEVEN)
    ensures LOST_SEVEN.offset == 8 && 7 in LOST_SEVEN.passed && 7 !in LOST_SEVEN.ended
  {
    FirstLife();
    SecondLife();
    RunBoth(Started(map[], 0), FIRST_LIFE, STARTED_SEVEN, SECOND_LIFE, LOST_SEVEN);
  }

  // ---- Progress ----

  function RankOf(w: Worker): nat {
    match w
    case Running(_) => 3
    case Ended(_, _) => 2
    case SlotFreed(_, _) => 1
    case Gone(_, _) => 0
  }

  /** The moves left before the batch is complete, an upper bound. */
  function Left(s: State): int {
    Sum(s.workers, RankOf) +
    match s.phase
    case Idle => 0
    case Dispatching(batch, next, _) => 7 * (|batch| - next) + 2
    case SlotWanted(batch, next, _) => 7 * (|batch| - next) + 1
    case SlotHeld(batch, next, _) => 7 * (|batch| - next)
    case Draining(_, _) => 1
  }

  predicate Works(m: Move) { !m.Poll? && !m.PruneLedger? && !m.Restarted? }

  lemma WorkDecreases(s: State, m: Move)
    requires Inv(s) && Enabled(s, m) && Works(m)
    ensures 0 <= Left(Apply(s, m)) < Left(s)
  {
    hide LedgerInv, PassedInv, SlotsExact, WaitExact, Step, Restart, Remembers, InHand, Covered, Sum;
    match m
    case Finish(w, p) => SumUpdate(s.workers, RankOf, w, Ended(s.workers[w].id, p));
    case FreeSlot(w) => SumUpdate(s.workers, RankOf, w, SlotFreed(s.workers[w].id, s.workers[w].panicked));
    case SignOff(w) => SumUpdate(s.workers, RankOf, w, Gone(s.workers[w].id, s.workers[w].panicked));
    case Spawn => SumAppend(s.workers, RankOf, Running(s.phase.batch[s.phase.next]));
    case _ =>
  }

  /** The dispatcher blocks on a full semaphore only while a worker can still act, so a batch
      whose handlers end is completed, in finitely many moves. */
  lemma BatchNeverStuck(s: State) returns (m: Move)
    requires Inv(s) && !s.phase.Idle?
    ensures Works(m) && Enabled(s, m)
  {
    match s.phase {
      case Dispatching(batch, next, _) => m := if next < |batch| then Consider(0, true, 0) else EndOfBatch;
      case SlotHeld(_, _, _) => m := Spawn;
      case SlotWanted(_, _, _) =>
        if s.sem < MAX_WORKERS { m := TakeSlot; }
        else {
          SumPositive(s.workers, SlotOf);
          var w :| 0 <= w < |s.workers| && SlotOf(s.workers[w]) > 0;
          m := if s.workers[w].Running? then Finish(w, false) else FreeSlot(w);
        }
      case Draining(_, _) =>
        SumPositive(s.workers, PresenceOf);
        if s.wg == 0 { m := Return; }
        else {
          var w :| 0 <= w < |s.workers| && PresenceOf(s.workers[w]) > 0;
          if s.workers[w].Ended? { SumPositive(s.workers, SlotOf); }
          m := match s.workers[w]
               case Running(_) => Finish(w, false)
               case Ended(_, _) => FreeSlot(w)
               case SlotFreed(_, _) => SignOff(w);
        }
    }
  }
}

/** The wash bridge (scripts/yimao_wash_bridge.py): hands approved movie washes to a task board
    once each, remembering in a state file which ones it has handed over, run after run. */
module WashBridge {
  import opened Basics

  const MAX_RECORDS: nat := 25

  /** A review as the script reads it: texts already normalised, numbers None if malformed. */
  datatype Record = Record(
    businessType: string, status: string, mediaType: string, requestId: string, title: string,
    tmdbId: Option<int>, season: Option<int>, baseline: nat)

  predicate IsAlnum(c: char) {
    'A' <= c <= 'Z' || 'a' <= c <= 'z' || '0' <= c <= '9'
  }

  predicate IsIdChar(c: char) {
    IsAlnum(c) || c == '_' || c == '.' || c == ':' || c == '-'
  }

  /** The pattern of request ids. */
  predicate IsId(s: string) {
    1 <= |s| <= 128 && IsAlnum(s[0]) && forall i :: 1 <= i < |s| ==> IsIdChar(s[i])
  }

  predicate IsEligible(x: Record) {
    && x.businessType == "wash" && x.status == "approved" && x.mediaType == "movie"
    && x.tmdbId.Some? && x.season.Some?
    && IsId(x.requestId) && x.tmdbId.value > 0 && x.title != "" && x.season.value == 0 && x.baseline > 0
  }

  function Eligible(records: seq<Record>): seq<Record> {
    if records == [] then []
    else (if IsEligible(records[0]) then [records[0]] else []) + Eligible(records[1..])
  }

  /** The eligible records that one run looks at: the first 25. */
  function Candidates(records: seq<Record>): seq<Record> {
    var all := Eligible(records);
    if |all| > MAX_RECORDS then all[..MAX_RECORDS] else all
  }

  function Unseen(candidates: seq<Record>, seen: set<string>): seq<string> {
    if candidates == [] then []
    else (if candidates[0].requestId !in seen then [candidates[0].requestId] else []) + Unseen(candidates[1..], seen)
  }

  function IdsOf(records: seq<Record>): set<string> {
    set i | 0 <= i < |records| :: records[i].requestId
  }

  // ---- The world of the script ----

  /** The state file (None: not there), the tasks of the board, each under the idempotency key of
      its request, and the requests of every dispatch call ever made. */
  datatype World = World(file: Option<set<string>>, tasks: set<string>, calls: seq<string>)

  /** What becomes of one dispatch: the board accepts and the state is saved; it accepts and the
      script dies before saving; it refuses; or the script dies while calling. */
  datatype Outcome = Done | DiedUnsaved | RefusedByBoard | DiedCalling(created: bool)

  /** Accepted by `load_state`. */
  predicate ValidState(seen: set<string>) { forall id :: id in seen ==> IsId(id) }

  /** One dispatch of `id`: the world after it, the remembered ids, and whether the run goes on. */
  function Dispatched(w: World, seen: set<string>, id: string, o: Outcome): (World, set<string>, bool) {
    var called := w.(calls := w.calls + [id]);
    match o
    case Done =>
      var seen' := seen + {id};
      (called.(tasks := w.tasks + {id}, file := Some(seen')), seen', true)
    case DiedUnsaved => (called.(tasks := w.tasks + {id}), seen + {id}, false)
    case RefusedByBoard => (called, seen, true)
    case DiedCalling(created) => (called.(tasks := if created then w.tasks + {id} else w.tasks), seen, false)
  }

  /** The dispatch loop of a run. */
  function Scanned(w: World, seen: set<string>, pending: seq<string>, outcomes: seq<Outcome>): World
    requires |outcomes| >= |pending|
    decreases |pending|
  {
    if pending == [] then w
    else
      var (w', seen', on) := Dispatched(w, seen, pending[0], outcomes[0]);
      if on then Scanned(w', seen', pending[1..], outcomes[1..]) else w'
  }

  /** One run.  `records` None: the review file cannot be read. */
  function Run(w: World, bootstrap: bool, records: Option<seq<Record>>, outcomes: seq<Outcome>): World
    requires |outcomes| >= MAX_RECORDS
  {
    if records.None? || (w.file.Some? && !ValidState(w.file.value)) then w
    else
      var candidates := Candidates(records.value);
      if bootstrap then
        if w.file.Some? then w else w.(file := Some(IdsOf(candidates)))
      else if w.file.None? then w
      else
        UnseenShort(candidates, w.file.value);
        Scanned(w, w.file.value, Unseen(candidates, w.file.value), outcomes)
  }

  // ---- The code ----

  class Board {
    var tasks: set<string>
    var calls: seq<string>

    constructor ()
      ensures tasks == {} && calls == []
    {
      tasks, calls := {}, [];
    }

    /** The command line of the board: creating under a known key reuses the task. */
    method Create(id: string, accepted: bool)
      modifies this
      ensures calls == old(calls) + [id]
      ensures tasks == if accepted then old(tasks) + {id} else old(tasks)
    {
      calls := calls + [id];
      if accepted { tasks := tasks + {id}; }
    }
  }

  class StateFile {
    var content: Option<set<string>>

    constructor ()
      ensures content == None
    {
      content := None;
    }
  }

  method ListEligible(records: seq<Record>) returns (chosen: seq<Record>)
    ensures chosen == Candidates(records)
  {
    hide IsEligible;
    var all := [];
    for i := 0 to |records|
      invariant Eligible(records) == all + Eligible(records[i..])
    {
      assert records[i..][1..] == records[i+1..];
      if IsEligible(records[i]) { all := all + [records[i]]; }
    }
    chosen := if |all| > MAX_RECORDS then all[..MAX_RECORDS] else all;
  }

  lemma UnseenAt(candidates: seq<Record>, seen: set<string>, i: nat)
    requires i <= |candidates|
    ensures Unseen(candidates[i..], seen)
            == if i == |candidates| then []
               else (if candidates[i].requestId !in seen then [candidates[i].requestId] else [])
                    + Unseen(candidates[i+1..], seen)
  {
    if i < |candidates| { assert candidates[i..][1..] == candidates[i+1..]; }
  }

  method ListUnseen(candidates: seq<Record>, seen: set<string>) returns (pending: seq<string>)
    ensures pending == Unseen(candidates, seen)
  {
    hide Unseen;
    pending := [];
    for i := 0 to |candidates|
      invariant Unseen(candidates, seen) == pending + Unseen(candidates[i..], seen)
    {
      UnseenAt(candidates, seen, i);
      if candidates[i].requestId !in seen { pending := pending + [candidates[i].requestId]; }
    }
    UnseenAt(candidates, seen, |candidates|);
  }

  ghost function WorldOf(file: StateFile, board: Board): World
    reads file, board
  {
    World(file.content, board.tasks, board.calls)
  }

  predicate Dies(o: Outcome) { o.DiedUnsaved? || o.DiedCalling? }

  /** The run stops before it dispatches or bootstraps: something cannot be read, or there is
      already a state file to bootstrap, or none yet to go by. */
  predicate Declines(w: World, bootstrap: bool, records: Option<seq<Record>>) {
    records.None? || (w.file.Some? && !ValidState(w.file.value)) || bootstrap == w.file.Some?
  }

  /** The exit code of the dispatch loop, None if the script dies in it. */
  ghost predicate ScanExits(n: nat, outcomes: seq<Outcome>, exit: Option<int>)
    requires |outcomes| >= n
  {
    && (exit.None? <==> exists i :: 0 <= i < n && Dies(outcomes[i]))
    && (exit.Some? ==> exit.value == if exists i :: 0 <= i < n && outcomes[i].RefusedByBoard? then 1 else 0)
  }

  /** `main`; `outcomes` says what becomes of each dispatch.  The exit code is None if the script
      dies. */
  method Execute(file: StateFile, board: Board, bootstrap: bool, records: Option<seq<Record>>, outcomes: seq<Outcome>)
    returns (exit: Option<int>)
    requires |outcomes| >= MAX_RECORDS
    modifies file, board
    ensures WorldOf(file, board) == Run(old(WorldOf(file, board)), bootstrap, records, outcomes)
    ensures var w := old(WorldOf(file, board));
            if Declines(w, bootstrap, records) then exit == Some(1)
            else if bootstrap then exit == Some(0)
            else
              var pending := Unseen(Candidates(records.value), w.file.value);
              |pending| <= |outcomes| && ScanExits(|pending|, outcomes, exit)
  {
    if records.None? { return Some(1); }
    var chosen := ListEligible(records.value);
    if file.content.Some? && !(forall id :: id in file.content.value ==> IsId(id)) { return Some(1); }
    if bootstrap {
      if file.content.Some? { return Some(1); }
      file.content := Some(set i | 0 <= i < |chosen| :: chosen[i].requestId);
      return Some(0);
    }
    if file.content.None? { return Some(1); }
    var seen := file.content.value;
    var pending := ListUnseen(chosen, seen);
    UnseenShort(chosen, seen);
    exit := Scan(file, board, seen, pending, outcomes);
  }

  method Scan(file: StateFile, board: Board, seen0: set<string>, pending: seq<string>, outcomes: seq<Outcome>)
    returns (exit: Option<int>)
    requires |outcomes| >= |pending|
    modifies file, board
    ensures WorldOf(file, board) == Scanned(old(WorldOf(file, board)), seen0, pending, outcomes)
    ensures ScanExits(|pending|, outcomes, exit)
  {
    var seen := seen0;
    var failed := 0;
    ghost var start := WorldOf(file, board);
    for i := 0 to |pending|
      invariant Scanned(start, seen0, pending, outcomes)
                == Scanned(WorldOf(file, board), seen, pending[i..], outcomes[i..])
      invariant forall j :: 0 <= j < i ==> !Dies(outcomes[j])
      invariant failed >= 0 && (failed > 0 <==> exists j :: 0 <= j < i && outcomes[j].RefusedByBoard?)
    {
      assert pending[i..][1..] == pending[i+1..] && outcomes[i..][1..] == outcomes[i+1..];
      var id, o := pending[i], outcomes[i];
      board.Create(id, o.Done? || o.DiedUnsaved? || (o.DiedCalling? && o.created));
      if Dies(o) { return None; }
      if o.Done? {
        seen := seen + {id};
        file.content := Some(seen);
      } else {
        failed := failed + 1;
      }
    }
    return Some(if failed > 0 then 1 else 0);
  }

  lemma {:induction false} UnseenShort(candidates: seq<Record>, seen: set<string>)
    ensures |Unseen(candidates, seen)| <= |candidates|
    ensures forall id :: id in Unseen(candidates, seen) ==> id !in seen && id in IdsOf(candidates)
  {
    if candidates != [] {
      UnseenShort(candidates[1..], seen);
      forall id | id in IdsOf(candidates[1..]) ensures id in IdsOf(candidates) {
        var i :| 0 <= i < |candidates| - 1 && candidates[1..][i].requestId == id;
        assert candidates[i+1].requestId == id;
      }
    }
  }

  lemma {:induction false} EligibleFacts(records: seq<Record>)
    ensures forall x :: x in Eligible(records) ==> IsEligible(x) && x in records
  {
    hide IsEligible;
    if records != [] { EligibleFacts(records[1..]); }
  }

  // ---- What is handed over ----

  /** An approved wash of a movie, with a proper id, a title and resources to compare with. */
  lemma EligibleIsMovieWash(x: Record)
    ensures IsEligible(x)
            <==> && x.businessType == "wash" && x.status == "approved" && x.mediaType == "movie"
                 && x.tmdbId.Some? && x.tmdbId.value > 0 && x.season == Some(0)
                 && x.title != "" && x.baseline != 0
                 && 1 <= |x.requestId| <= 128 && IsAlnum(x.requestId[0])
                 && forall i :: 1 <= i < |x.requestId| ==> IsIdChar(x.requestId[i])
  {
  }

  /** What an id is made of, and that two ids with a mark between them make an id, if it is not too
      long. */
  lemma IdsCompose(a: string, b: string, mark: char)
    requires IsId(a) && IsId(b) && |a| + |b| < 128
    ensures IsId(a + [mark] + b) <==> mark in "_.:-" || IsAlnum(mark)
    ensures forall i :: 0 <= i < |a| ==> a[i] in "_.:-" || IsAlnum(a[i])
    ensures forall c :: IsAlnum(c) ==> 'A' <= c <= 'Z' || 'a' <= c <= 'z' || '0' <= c <= '9'
  {
    var s := a + [mark] + b;
    assert "_.:-"[0] == '_' && "_.:-"[1] == '.' && "_.:-"[2] == ':' && "_.:-"[3] == '-';
    assert s[|a|] == mark && s[0] == a[0];
  }

  /** A run that cannot read its input or its file, a bootstrap over a file and an ordinary run without
      one change nothing. */
  lemma DeclinedRun(w: World, bootstrap: bool, records: Option<seq<Record>>, outcomes: seq<Outcome>)
    requires |outcomes| >= MAX_RECORDS
    requires || records.None? || bootstrap == w.file.Some?
             || (w.file.Some? && exists id :: id in w.file.value && !IsId(id))
    ensures Run(w, bootstrap, records, outcomes) == w
  {
  }

  lemma EligibleOne(x: Record, rest: seq<Record>)
    ensures Eligible([x] + rest) == (if IsEligible(x) then [x] else []) + Eligible(rest)
    ensures Eligible([]) == []
  {
    hide IsEligible;
    assert ([x] + rest)[1..] == rest;
  }

  lemma UnseenOne(x: Record, rest: seq<Record>, seen: set<string>)
    ensures Unseen([x] + rest, seen) == (if x.requestId in seen then [] else [x.requestId]) + Unseen(rest, seen)
    ensures Unseen([], seen) == []
  {
    assert ([x] + rest)[1..] == rest;
  }

  /** A run looks at the first 25 eligible records, in their order. */
  lemma CandidatesAreFirst(records: seq<Record>)
    ensures Candidates(records) <= Eligible(records)
    ensures |Candidates(records)| == if |Eligible(records)| < 25 then |Eligible(records)| else 25
  {
  }

  /** Every call that a run makes is for an eligible record of its input that is not remembered, and
      the script calls for all of those among the first 25, in order, unless it dies. */
  lemma RunCallsPending(w: World, records: seq<Record>, outcomes: seq<Outcome>) returns (n: nat)
    requires |outcomes| >= MAX_RECORDS && w.file.Some? && ValidState(w.file.value)
    ensures var pending := Unseen(Candidates(records), w.file.value);
            && n <= |pending| && Run(w, false, Some(records), outcomes).calls == w.calls + pending[..n]
            && ((forall i :: 0 <= i < |outcomes| ==> !Dies(outcomes[i])) ==> n == |pending|)
            && forall i :: 0 <= i < |pending| ==>
                 pending[i] !in w.file.value && exists x :: x in records && IsEligible(x) && x.requestId == pending[i]
  {
    hide IsEligible;
    var candidates, seen := Candidates(records), w.file.value;
    UnseenShort(candidates, seen);
    EligibleFacts(records);
    n := ScanCalls(w, seen, Unseen(candidates, seen), outcomes);
    forall i | 0 <= i < |Unseen(candidates, seen)|
      ensures Unseen(candidates, seen)[i] !in seen
      ensures exists x :: x in records && IsEligible(x) && x.requestId == Unseen(candidates, seen)[i]
    {
      var id := Unseen(candidates, seen)[i];
      assert id in IdsOf(candidates);
      var j :| 0 <= j < |candidates| && candidates[j].requestId == id;
      assert candidates[j] in Eligible(records);
    }
  }

  // ---- Over any runs ----

  datatype RunInput = RunInput(bootstrap: bool, records: Option<seq<Record>>, outcomes: seq<Outcome>)

  function Runs(w: World, inputs: seq<RunInput>): World
    requires forall i :: 0 <= i < |inputs| ==> |inputs[i].outcomes| >= MAX_RECORDS
    decreases |inputs|
  {
    if inputs == [] then w
    else Runs(Run(w, inputs[0].bootstrap, inputs[0].records, inputs[0].outcomes), inputs[1..])
  }

  const FRESH := World(None, {}, [])

  /** `skipped` are the ids that the bootstrap wrote down without dispatching them. */
  ghost predicate Inv(w: World, skipped: set<string>) {
    && (w.file.None? ==> skipped == {} && w.tasks == {} && w.calls == [])
    && (w.file.Some? ==>
          && ValidState(w.file.value)
          && skipped <= w.file.value <= skipped + w.tasks)
    && (forall id :: id in w.tasks ==> id in w.calls)
    && (forall id :: id in w.calls ==> id !in skipped)
  }

  lemma DispatchInv(w: World, skipped: set<string>, id: string, o: Outcome)
    requires Inv(w, skipped) && w.file.Some? && IsId(id) && id !in skipped
    ensures var (w', seen', on) := Dispatched(w, w.file.value, id, o);
            && Inv(w', skipped) && w'.file.Some? && w.file.value <= w'.file.value
            && (on ==> seen' == w'.file.value)
  {
    hide IsId;
    var w' := Dispatched(w, w.file.value, id, o).0;
    assert w'.calls[|w.calls|] == id;
    assert forall c :: c in w.calls ==> c in w'.calls;
  }

  lemma {:induction false} ScanInv(w: World, skipped: set<string>, pending: seq<string>, outcomes: seq<Outcome>)
    requires Inv(w, skipped) && w.file.Some? && |outcomes| >= |pending|
    requires forall id :: id in pending ==> IsId(id) && id !in skipped
    ensures var w' := Scanned(w, w.file.value, pending, outcomes);
            Inv(w', skipped) && w'.file.Some? && w.file.value <= w'.file.value
    decreases |pending|
  {
    hide IsId, Inv;
    if pending != [] {
      DispatchInv(w, skipped, pending[0], outcomes[0]);
      var (w', seen', on) := Dispatched(w, w.file.value, pending[0], outcomes[0]);
      assert forall id :: id in pending[1..] ==> id in pending;
      if on { ScanInv(w', skipped, pending[1..], outcomes[1..]); }
    }
  }

  lemma CandidateIds(records: seq<Record>)
    ensures ValidState(IdsOf(Candidates(records)))
  {
    hide IsId;
    EligibleFacts(records);
    var cs := Candidates(records);
    forall id | id in IdsOf(cs) ensures IsId(id) {
      var i :| 0 <= i < |cs| && cs[i].requestId == id;
      assert cs[i] in Eligible(records);
    }
  }

  /** One run keeps the invariant; what is remembered stays remembered, and only a first bootstrap
      adds to what is skipped. */
  lemma RunInv(w: World, skipped: set<string>, input: RunInput) returns (skipped': set<string>)
    requires Inv(w, skipped) && |input.outcomes| >= MAX_RECORDS
    ensures var w' := Run(w, input.bootstrap, input.records, input.outcomes);
            && Inv(w', skipped')
            && (w.file.Some? ==> skipped' == skipped && w'.file.Some? && w.file.value <= w'.file.value)
  {
    skipped' := skipped;
    if input.records.Some? && (w.file.Some? ==> ValidState(w.file.value)) {
      var candidates := Candidates(input.records.value);
      CandidateIds(input.records.value);
      if input.bootstrap {
        if w.file.None? { skipped' := IdsOf(candidates); }
      } else if w.file.Some? {
        UnseenShort(candidates, w.file.value);
        ScanInv(w, skipped, Unseen(candidates, w.file.value), input.outcomes);
      }
    }
  }

  /** Over any runs, crashes included: the state file can always be read; whatever it remembers has
      a task, except what the bootstrap skipped on purpose; and what was skipped is never
      dispatched. */
  lemma {:induction false} NothingLost(w: World, skipped: set<string>, inputs: seq<RunInput>)
    returns (skipped': set<string>)
    requires Inv(w, skipped) && forall i :: 0 <= i < |inputs| ==> |inputs[i].outcomes| >= MAX_RECORDS
    ensures var w' := Runs(w, inputs);
            && (w'.file.Some? ==> ValidState(w'.file.value) && w'.file.value - skipped' <= w'.tasks)
            && (forall id :: id in skipped' ==> id !in w'.calls)
            && (w.file.Some? ==> skipped' == skipped && w'.file.Some? && w.file.value <= w'.file.value)
    decreases |inputs|
  {
    if inputs == [] {
      skipped' := skipped;
    } else {
      var s := RunInv(w, skipped, inputs[0]);
      skipped' := NothingLost(Run(w, inputs[0].bootstrap, inputs[0].records, inputs[0].outcomes), s, inputs[1..]);
    }
  }

  lemma InvFresh()
    ensures Inv(FRESH, {})
  {
  }

  /** In particular from the very first run on: every request that is remembered has a task or was
      skipped by the bootstrap, and no request is both skipped and dispatched. */
  lemma NothingLostFromFresh(inputs: seq<RunInput>) returns (skipped: set<string>)
    requires forall i :: 0 <= i < |inputs| ==> |inputs[i].outcomes| >= MAX_RECORDS
    ensures var w := Runs(FRESH, inputs);
            && (w.file.Some? ==> ValidState(w.file.value) && w.file.value <= skipped + w.tasks)
            && (forall id :: id in skipped ==> id !in w.calls)
  {
    InvFresh();
    skipped := NothingLost(FRESH, {}, inputs);
  }

  // ---- How often a request is dispatched ----

  function Times(calls: seq<string>, id: string): nat {
    if calls == [] then 0 else Times(calls[..|calls|-1], id) + if calls[|calls|-1] == id then 1 else 0
  }

  lemma {:induction false} TimesConcat(a: seq<string>, b: seq<string>, id: string)
    ensures Times(a + b, id) == Times(a, id) + Times(b, id)
  {
    if b == [] {
      assert a + b == a;
    } else {
      TimesConcat(a, b[..|b|-1], id);
      assert (a + b)[..|a + b|-1] == a + b[..|b|-1];
    }
  }

  /** The calls of one scan are a beginning of the pending ids: all of them unless it dies. */
  lemma {:induction false} ScanCalls(w: World, seen: set<string>, pending: seq<string>, outcomes: seq<Outcome>)
    returns (n: nat)
    requires |outcomes| >= |pending|
    ensures n <= |pending| && Scanned(w, seen, pending, outcomes).calls == w.calls + pending[..n]
    ensures (forall i :: 0 <= i < |pending| ==> !Dies(outcomes[i])) ==> n == |pending|
    decreases |pending|
  {
    if pending == [] {
      n := 0;
      assert w.calls + [] == w.calls;
    } else {
      var (w', seen', on) := Dispatched(w, seen, pending[0], outcomes[0]);
      if on {
        n := ScanCalls(w', seen', pending[1..], outcomes[1..]);
        n := n + 1;
        assert pending[..n] == [pending[0]] + pending[1..][..n-1];
        assert w.calls + ([pending[0]] + pending[1..][..n-1]) == w.calls + [pending[0]] + pending[1..][..n-1];
      } else {
        n := 1;
        assert pending[..1] == [pending[0]];
      }
    }
  }

  lemma {:induction false} ScanRemembers(w: World, seen: set<string>, pending: seq<string>, outcomes: seq<Outcome>)
    requires |outcomes| >= |pending| && w.file == Some(seen) && forall i :: 0 <= i < |pending| ==> outcomes[i].Done?
    ensures Scanned(w, seen, pending, outcomes).file.Some?
    ensures Scanned(w, seen, pending, outcomes).file.value == seen + set id | id in pending
    decreases |pending|
  {
    if pending != [] {
      var (w', seen', on) := Dispatched(w, seen, pending[0], outcomes[0]);
      ScanRemembers(w', seen', pending[1..], outcomes[1..]);
    }
  }

  /** What is remembered is never dispatched again, in any later run. */
  lemma {:induction false} RememberedOnce(w: World, skipped: set<string>, inputs: seq<RunInput>, id: string)
    requires Inv(w, skipped) && forall i :: 0 <= i < |inputs| ==> |inputs[i].outcomes| >= MAX_RECORDS
    requires w.file.Some? && id in w.file.value
    ensures Times(Runs(w, inputs).calls, id) == Times(w.calls, id)
    decreases |inputs|
  {
    if inputs != [] {
      var input := inputs[0];
      var w' := Run(w, input.bootstrap, input.records, input.outcomes);
      var s := RunInv(w, skipped, input);
      if w'.calls != w.calls {
        var candidates := Candidates(input.records.value);
        var pending := Unseen(candidates, w.file.value);
        UnseenShort(candidates, w.file.value);
        var n := ScanCalls(w, w.file.value, pending, input.outcomes);
        TimesConcat(w.calls, pending[..n], id);
        assert forall x :: x in pending[..n] ==> x in pending;
        NeverTimes(pending[..n], id);
      }
      RememberedOnce(w', s, inputs[1..], id);
    }
  }

  lemma {:induction false} NeverTimes(calls: seq<string>, id: string)
    requires id !in calls
    ensures Times(calls, id) == 0
  {
    if calls != [] { NeverTimes(calls[..|calls|-1], id); }
  }

  /** In a run that does not die, a request that is not remembered is dispatched as often as it is
      listed among the candidates, not once: the ids are not checked again within the run.  If
      every dispatch succeeds, all candidates are remembered. */
  lemma DispatchedAsOftenAsListed(w: World, records: seq<Record>, outcomes: seq<Outcome>, id: string)
    requires |outcomes| >= MAX_RECORDS && w.file.Some? && ValidState(w.file.value)
    requires forall i :: 0 <= i < |outcomes| ==> !Dies(outcomes[i])
    ensures var w' := Run(w, false, Some(records), outcomes);
            && Times(w'.calls, id) == Times(w.calls, id) + Times(Unseen(Candidates(records), w.file.value), id)
            && ((forall i :: 0 <= i < |outcomes| ==> outcomes[i].Done?) ==>
                  w'.file == Some(w.file.value + IdsOf(Candidates(records))))
  {
    var candidates, seen := Candidates(records), w.file.value;
    UnseenShort(candidates, seen);
    var pending := Unseen(candidates, seen);
    var n := ScanCalls(w, seen, pending, outcomes);
    assert pending[..|pending|] == pending;
    TimesConcat(w.calls, pending, id);
    if forall i :: 0 <= i < |outcomes| ==> outcomes[i].Done? {
      ScanRemembers(w, seen, pending, outcomes);
      UnseenCovers(candidates, seen);
      assert seen + (set x | x in pending) == seen + IdsOf(candidates);
    }
  }

  /** Such an input: any eligible record, listed twice. */
  lemma ListedTwice(w: World, r: Record, outcomes: seq<Outcome>)
    requires |outcomes| >= MAX_RECORDS && w.file.Some? && ValidState(w.file.value)
    requires IsEligible(r) && r.requestId !in w.file.value
    requires forall i :: 0 <= i < |outcomes| ==> outcomes[i].Done?
    ensures Times(Run(w, false, Some([r, r]), outcomes).calls, r.requestId) == Times(w.calls, r.requestId) + 2
  {
    hide IsEligible, Run;
    var id := r.requestId;
    DispatchedAsOftenAsListed(w, [r, r], outcomes, id);
    assert [r, r][1..] == [r] && [r][1..] == [] && [r] + [] == [r] && [r] + [r] == [r, r];
    assert Eligible([r]) == [r] + Eligible([]);
    assert Eligible([r, r]) == [r] + Eligible([r]);
    assert Unseen([r], w.file.value) == [id] + Unseen([], w.file.value);
    assert Unseen([r, r], w.file.value) == [id] + Unseen([r], w.file.value) == [id] + [id];
    TimesOne([id], id, id);
    TimesOne([], id, id);
    assert [] + [id] == [id];
  }

  lemma {:induction false} UnseenCovers(candidates: seq<Record>, seen: set<string>)
    ensures forall id :: id in IdsOf(candidates) && id !in seen ==> id in Unseen(candidates, seen)
  {
    if candidates != [] {
      UnseenCovers(candidates[1..], seen);
      forall id | id in IdsOf(candidates) && id != candidates[0].requestId ensures id in IdsOf(candidates[1..]) {
        var i :| 0 <= i < |candidates| && candidates[i].requestId == id;
        assert candidates[1..][i-1].requestId == id;
      }
    }
  }

  // ---- Requests listed once ----

  predicate Distinct(ids: seq<string>) {
    forall i, j :: 0 <= i < j < |ids| ==> ids[i] != ids[j]
  }

  /** No request is twice among the candidates. */
  predicate ListedOnce(records: seq<Record>) {
    var cs := Candidates(records);
    forall i, j :: 0 <= i < j < |cs| ==> cs[i].requestId != cs[j].requestId
  }

  lemma {:induction false} UnseenDistinct(candidates: seq<Record>, seen: set<string>)
    requires forall i, j :: 0 <= i < j < |candidates| ==> candidates[i].requestId != candidates[j].requestId
    ensures Distinct(Unseen(candidates, seen))
  {
    if candidates != [] {
      UnseenDistinct(candidates[1..], seen);
      UnseenShort(candidates[1..], seen);
      var rest := Unseen(candidates[1..], seen);
      assert forall i :: 0 <= i < |rest| ==> rest[i] in IdsOf(candidates[1..]);
    }
  }

  /** The dispatches of `id` in one scan that did not end well. */
  function ScanTroubles(pending: seq<string>, outcomes: seq<Outcome>, id: string): nat
    requires |outcomes| >= |pending|
    decreases |pending|
  {
    if pending == [] then 0
    else
      (if pending[0] == id && !outcomes[0].Done? then 1 else 0)
      + (if Dies(outcomes[0]) then 0 else ScanTroubles(pending[1..], outcomes[1..], id))
  }

  lemma {:induction false} NoTroubles(pending: seq<string>, outcomes: seq<Outcome>, id: string)
    requires |outcomes| >= |pending| && id !in pending
    ensures ScanTroubles(pending, outcomes, id) == 0
    decreases |pending|
  {
    if pending != [] { NoTroubles(pending[1..], outcomes[1..], id); }
  }

  lemma DoneLives(o: Outcome)
    ensures o.Done? ==> !Dies(o)
  {
  }

  lemma TimesOne(calls: seq<string>, x: string, id: string)
    ensures Times(calls + [x], id) == Times(calls, id) + if x == id then 1 else 0
  {
    assert (calls + [x])[..|calls|] == calls;
  }

  lemma DispatchCounts(w: World, x: string, o: Outcome)
    requires w.file.Some?
    ensures var (w1, seen', on) := Dispatched(w, w.file.value, x, o);
            && w1.calls == w.calls + [x] && on == !Dies(o)
            && w1.file == Some(w.file.value + if o.Done? then {x} else {})
            && (on ==> w1.file == Some(seen'))
  {
    assert w.file.value + {} == w.file.value;
  }

  /** In one scan, `id` is called once for each trouble, and once more if it is newly remembered. */
  lemma {:induction false} ScanCounts(w: World, pending: seq<string>, outcomes: seq<Outcome>, id: string)
    requires w.file.Some? && |outcomes| >= |pending| && Distinct(pending)
    requires forall x :: x in pending ==> x !in w.file.value
    ensures var w' := Scanned(w, w.file.value, pending, outcomes);
            && w'.file.Some? && w.file.value <= w'.file.value
            && Times(w'.calls, id) == Times(w.calls, id) + ScanTroubles(pending, outcomes, id)
                                      + if id in w'.file.value && id !in w.file.value then 1 else 0
    decreases |pending|
  {
    hide Dispatched, Dies, Times;
    if pending != [] {
      var x := pending[0];
      var (w1, seen', on) := Dispatched(w, w.file.value, x, outcomes[0]);
      DispatchCounts(w, x, outcomes[0]);
      DoneLives(outcomes[0]);
      TimesOne(w.calls, x, id);
      assert x !in pending[1..];
      if on {
        ScanCounts(w1, pending[1..], outcomes[1..], id);
        if x == id { NoTroubles(pending[1..], outcomes[1..], id); }
      }
    }
  }

  function RunTroubles(w: World, input: RunInput, id: string): nat
    requires |input.outcomes| >= MAX_RECORDS
  {
    if Declines(w, input.bootstrap, input.records) || input.bootstrap then 0
    else
      var candidates := Candidates(input.records.value);
      UnseenShort(candidates, w.file.value);
      ScanTroubles(Unseen(candidates, w.file.value), input.outcomes, id)
  }

  /** All dispatches of `id` that were refused or in which the script died. */
  function Troubles(w: World, inputs: seq<RunInput>, id: string): nat
    requires forall i :: 0 <= i < |inputs| ==> |inputs[i].outcomes| >= MAX_RECORDS
    decreases |inputs|
  {
    if inputs == [] then 0
    else
      RunTroubles(w, inputs[0], id)
      + Troubles(Run(w, inputs[0].bootstrap, inputs[0].records, inputs[0].outcomes), inputs[1..], id)
  }

  lemma RunCounts(w: World, input: RunInput, id: string)
    requires |input.outcomes| >= MAX_RECORDS && (input.records.Some? ==> ListedOnce(input.records.value))
    ensures var w' := Run(w, input.bootstrap, input.records, input.outcomes);
            if w.file.None? then w'.calls == w.calls && RunTroubles(w, input, id) == 0
            else
              && w'.file.Some? && w.file.value <= w'.file.value
              && Times(w'.calls, id) == Times(w.calls, id) + RunTroubles(w, input, id)
                                        + if id in w'.file.value && id !in w.file.value then 1 else 0
  {
    hide Scanned, ScanTroubles, Unseen, Eligible;
    if !Declines(w, input.bootstrap, input.records) && !input.bootstrap {
      var candidates := Candidates(input.records.value);
      UnseenShort(candidates, w.file.value);
      UnseenDistinct(candidates, w.file.value);
      ScanCounts(w, Unseen(candidates, w.file.value), input.outcomes, id);
    }
  }

  /** Over any runs whose inputs list no request twice, a request is called exactly once for each
      refusal or death, and once more if it came to be remembered. */
  lemma {:induction false} CalledOncePerTrouble(w: World, inputs: seq<RunInput>, id: string)
    requires forall i :: 0 <= i < |inputs| ==> |inputs[i].outcomes| >= MAX_RECORDS
    requires forall i :: 0 <= i < |inputs| && inputs[i].records.Some? ==> ListedOnce(inputs[i].records.value)
    requires w.file.Some?
    ensures var w' := Runs(w, inputs);
            && w'.file.Some? && w.file.value <= w'.file.value
            && Times(w'.calls, id) == Times(w.calls, id) + Troubles(w, inputs, id)
                                      + if id in w'.file.value && id !in w.file.value then 1 else 0
    decreases |inputs|
  {
    hide Run, RunTroubles, ListedOnce;
    if inputs != [] {
      RunCounts(w, inputs[0], id);
      CalledOncePerTrouble(Run(w, inputs[0].bootstrap, inputs[0].records, inputs[0].outcomes), inputs[1..], id);
    }
  }

  /** So from the first run on, at most once, and once more for each refusal or death. */
  lemma {:induction false} CalledAtMostOnce(w: World, inputs: seq<RunInput>, id: string)
    requires forall i :: 0 <= i < |inputs| ==> |inputs[i].outcomes| >= MAX_RECORDS
    requires forall i :: 0 <= i < |inputs| && inputs[i].records.Some? ==> ListedOnce(inputs[i].records.value)
    ensures Times(Runs(w, inputs).calls, id) <= Times(w.calls, id) + Troubles(w, inputs, id) + 1
    decreases |inputs|
  {
    hide Run, RunTroubles, ListedOnce;
    if w.file.Some? {
      CalledOncePerTrouble(w, inputs, id);
    } else if inputs != [] {
      RunCounts(w, inputs[0], id);
      CalledAtMostOnce(Run(w, inputs[0].bootstrap, inputs[0].records, inputs[0].outcomes), inputs[1..], id);
    }
  }

  /** A run looks at the first 25 eligible records only, remembered ones included: it dispatches
      nothing exactly when it remembers all of those, whatever else is eligible. */
  lemma StarvesBehindRemembered(w: World, records: seq<Record>, outcomes: seq<Outcome>)
    requires |outcomes| >= MAX_RECORDS && w.file.Some? && ValidState(w.file.value)
    ensures Run(w, false, Some(records), outcomes).calls == w.calls <==> IdsOf(Candidates(records)) <= w.file.value
  {
    var candidates, seen := Candidates(records), w.file.value;
    UnseenShort(candidates, seen);
    UnseenCovers(candidates, seen);
    var pending := Unseen(candidates, seen);
    if pending != [] {
      assert pending[0] in pending;
      FirstCalled(w, seen, pending, outcomes);
    }
  }

  lemma FirstCalled(w: World, seen: set<string>, pending: seq<string>, outcomes: seq<Outcome>)
    requires |outcomes| >= |pending| > 0
    ensures Scanned(w, seen, pending, outcomes).calls != w.calls
  {
    var (w', seen', on) := Dispatched(w, seen, pending[0], outcomes[0]);
    if on { var n := ScanCalls(w', seen', pending[1..], outcomes[1..]); }
  }
}

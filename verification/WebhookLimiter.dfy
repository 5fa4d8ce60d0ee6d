/** The per-user throttle of the Telegram webhook (internal/bot/webhook.go, lines 40-114): a
    window of one minute that counts admissions, and a count of updates in flight. */
module WebhookLimiter {
  import opened Basics
  import opened Tally
  import opened Admissions

  const RATE_WINDOW: int := MINUTE
  const MAX_UPDATES: nat := 30
  const OCCUPANCY_LIMIT: nat := 4
  const PRUNE_ABOVE: nat := 4096

  datatype Window = Window(count: nat, inFlight: nat, windowEnd: int)

  predicate Expired(w: Window, now: int) { now >= w.windowEnd }

  predicate Prunable(w: Window, now: int) { Expired(w, now) && w.inFlight == 0 }

  /** The user's window for a call at `now`; an expired one is replaced, in-flight count and all. */
  function Opened(found: Option<Window>, now: int): Window {
    if found.None? || Expired(found.value, now) then Window(0, 0, now + RATE_WINDOW) else found.value
  }

  predicate Admits(w: Window) { w.count < MAX_UPDATES && w.inFlight < OCCUPANCY_LIMIT }

  function Counted(w: Window): Window {
    if Admits(w) then w.(count := w.count + 1, inFlight := w.inFlight + 1) else w
  }

  function Released(found: Option<Window>): Option<Window> {
    match found
    case None => None
    case Some(w) => Some(if w.inFlight > 0 then w.(inFlight := w.inFlight - 1) else w)
  }

  function Find(m: map<int, Window>, user: int): Option<Window> {
    if user in m then Some(m[user]) else None
  }

  function Pruned(m: map<int, Window>, now: int): map<int, Window> {
    map u | u in m && !Prunable(m[u], now) :: m[u]
  }

  /** What happens to one user: a call at `now`, the end of an admitted update, or the removal of
      the window by a call of another user at `now`. */
  datatype Event = Call(now: int) | End | Prune(now: int)

  /** The user's window after it. */
  function After(found: Option<Window>, e: Event): Option<Window> {
    match e
    case Call(now) => Some(Counted(Opened(found, now)))
    case End => Released(found)
    case Prune(_) => None
  }

  /** What a call of `user` does to the windows of all users. */
  ghost predicate Asked(m: map<int, Window>, user: int, now: int, m': map<int, Window>) {
    && (user == 0 ==> m' == m)
    && (user != 0 ==> Find(m', user) == After(Find(m, user), Call(now)))
    && forall v :: v != user ==>
         || Find(m', v) == Find(m, v)
         || (v in m && Prunable(m[v], now) && Find(m', v) == After(Find(m, v), Event.Prune(now)))
  }

  ghost predicate Finished(m: map<int, Window>, user: int, m': map<int, Window>) {
    && (user == 0 ==> m' == m)
    && (user != 0 ==> Find(m', user) == After(Find(m, user), End))
    && forall v :: v != user ==> Find(m', v) == Find(m, v)
  }

  // ---- The code ----

  class WebhookThrottle {
    var windows: map<int, Window>

    constructor ()
      ensures windows == map[]
    {
      windows := map[];
    }

    /** Besides the answer: a call touches its own user's window, and removes no window but
        expired ones without updates in flight. */
    method Allow(user: int, now: int) returns (ok: bool)
      modifies this
      ensures ok == (user == 0 || Admits(Opened(Find(old(windows), user), now)))
      ensures Asked(old(windows), user, now, windows)
      ensures user != 0 && |windows| > 4096 ==> forall v :: v in windows ==> !Prunable(windows[v], now)
      ensures |old(windows)| < 4096 ==> forall v :: v != user ==> Find(windows, v) == Find(old(windows), v)
    {
      if user == 0 { return true; }
      var w := if user in windows then windows[user] else Window(0, 0, now);
      if user !in windows || now >= w.windowEnd {
        w := Window(0, 0, now + RATE_WINDOW);
        windows := windows[user := w];
      }
      if |windows| > PRUNE_ABOVE {
        Prune(now);
      }
      if w.count >= MAX_UPDATES { return false; }
      if w.inFlight >= OCCUPANCY_LIMIT { return false; }
      windows := windows[user := Window(w.count + 1, w.inFlight + 1, w.windowEnd)];
      return true;
    }

    method Prune(now: int)
      modifies this
      ensures windows == Pruned(old(windows), now)
    {
      var rest := windows.Keys;
      while rest != {}
        invariant rest <= windows.Keys <= old(windows).Keys
        invariant windows
                  == map u | u in old(windows) && (u in rest || !Prunable(old(windows)[u], now)) :: old(windows)[u]
        decreases |rest|
      {
        var u := Pick(rest);
        if now >= windows[u].windowEnd && windows[u].inFlight == 0 {
          windows := windows - {u};
        }
        rest := rest - {u};
      }
    }

    method Release(user: int)
      modifies this
      ensures Finished(old(windows), user, windows)
    {
      if user == 0 { return; }
      if user in windows && windows[user].inFlight > 0 {
        windows := windows[user := windows[user].(inFlight := windows[user].inFlight - 1)];
      }
    }
  }

  // ---- One user over a run ----

  /** The recorded window, the updates truly in flight, and all admissions. */
  datatype State = State(window: Option<Window>, inFlight: nat, history: seq<Admission>)

  const INITIAL := State(None, 0, [])

  predicate Enabled(s: State, e: Event) {
    match e
    case Call(_) => true
    case End => s.inFlight > 0
    case Prune(now) => s.window.Some? && Prunable(s.window.value, now)
  }

  function Step(s: State, e: Event): State
    requires Enabled(s, e)
  {
    var window := After(s.window, e);
    match e
    case Call(now) =>
      if Admits(Opened(s.window, now))
      then State(window, s.inFlight + 1, s.history + [Admission(now, window.value.windowEnd - RATE_WINDOW)])
      else s.(window := window)
    case End => s.(window := window, inFlight := s.inFlight - 1)
    case Prune(_) => s.(window := window)
  }

  function Clock(e: Event, last: int): int { if e.End? then last else e.now }

  /** `t` is reached from `s` by `events`, with a clock that starts at `last`. */
  ghost predicate Runs(s: State, last: int, events: seq<Event>, t: State, end: int)
    decreases |events|
  {
    if events == [] then t == s && end == last
    else
      && last <= Clock(events[0], last) && Enabled(s, events[0])
      && Runs(Step(s, events[0]), Clock(events[0], last), events[1..], t, end)
  }

  ghost predicate Inv(s: State, now: int) {
    && Windowed(s.history, RATE_WINDOW, MAX_UPDATES)
    && (forall i :: 0 <= i < |s.history| ==> s.history[i].at <= now)
    && match s.window
       case None => forall i :: 0 <= i < |s.history| ==> s.history[i].start + RATE_WINDOW <= now
       case Some(w) =>
         && w.windowEnd <= now + RATE_WINDOW
         && w.inFlight <= w.count <= MAX_UPDATES && w.inFlight <= OCCUPANCY_LIMIT && w.inFlight <= s.inFlight
         && Current(s.history, RATE_WINDOW, w.windowEnd - RATE_WINDOW, w.count)
  }

  lemma InvOpened(s: State, last: int, now: int)
    requires Inv(s, last) && last <= now
    ensures var w := Opened(s.window, now);
            now < w.windowEnd && Inv(s.(window := Some(w)), now)
  {
    if s.window.Some? && Expired(s.window.value, now) {
      NewWindow(s.history, RATE_WINDOW, s.window.value.windowEnd - RATE_WINDOW, s.window.value.count, now);
    }
  }

  lemma InvPrune(s: State, last: int, now: int)
    requires Inv(s, last) && Enabled(s, Prune(now)) && last <= now
    ensures Inv(Step(s, Prune(now)), now)
  {
  }

  lemma InvCall(s: State, last: int, now: int)
    requires Inv(s, last) && last <= now
    ensures Inv(Step(s, Call(now)), now)
  {
    hide Opened, Apart, Current;
    InvOpened(s, last, now);
    var w := Opened(s.window, now);
    if Admits(w) {
      AdmitOne(s.history, RATE_WINDOW, MAX_UPDATES, w.windowEnd - RATE_WINDOW, w.count, now);
      AdmitLatest(s.history, RATE_WINDOW, MAX_UPDATES, w.windowEnd - RATE_WINDOW, now);
      assert Step(s, Call(now)).history[..|s.history|] == s.history;
    }
  }

  lemma InvStep(s: State, last: int, e: Event)
    requires Inv(s, last) && Enabled(s, e) && last <= Clock(e, last)
    ensures Inv(Step(s, e), Clock(e, last))
  {
    hide Windowed, Current;
    match e
    case Call(now) => InvCall(s, last, now);
    case Prune(now) => InvPrune(s, last, now);
    case End =>
  }

  lemma {:induction false} InvRun(s: State, last: int, events: seq<Event>, t: State, end: int)
    requires Inv(s, last) && Runs(s, last, events, t, end)
    ensures Inv(t, end)
    decreases |events|
  {
    if events != [] {
      InvStep(s, last, events[0]);
      InvRun(Step(s, events[0]), Clock(events[0], last), events[1..], t, end);
    }
  }

  /** In every run: the recorded in-flight count is at most four, at most the window's count and
      at most the truth; a window counts at most thirty; a minute holds at most sixty admissions. */
  lemma Bounds(start: int, events: seq<Event>, t: State, end: int, a: int)
    requires Runs(INITIAL, start, events, t, end)
    ensures t.window.Some? ==>
              && t.window.value.inFlight <= 4
              && t.window.value.inFlight <= t.window.value.count <= 30
              && t.window.value.inFlight <= t.inFlight
    ensures Windowed(t.history, RATE_WINDOW, MAX_UPDATES)
    ensures Sum(Times(t.history), Within(Span(a, 60 * SECOND))) <= 60
  {
    InvRun(INITIAL, start, events, t, end);
    TwoWindows(t.history, RATE_WINDOW, MAX_UPDATES, a);
  }

  /** And they are exact: a call is refused exactly while the user's window is open and has had thirty
      admissions or has four updates in flight. */
  lemma RefusedIff(s: State, last: int, now: int)
    requires Inv(s, last) && last <= now
    ensures !Admits(Opened(s.window, now))
            <==> && s.window.Some? && now < s.window.value.windowEnd
                 && (|| Sum(s.history, StartsAt(s.window.value.windowEnd - 60 * SECOND)) == 30
                     || s.window.value.inFlight == 4)
  {
    if s.window.Some? {
      var w := s.window.value;
      CurrentCounts(s.history, RATE_WINDOW, w.windowEnd - RATE_WINDOW, w.count);
    }
  }

  /** A window begins with its first call and lasts a minute; an update in it is counted once and is in
      flight until it ends. */
  lemma WindowOfMinute(found: Option<Window>, now: int)
    ensures found.None? || now >= found.value.windowEnd ==>
              After(found, Call(now)) == Some(Window(1, 1, now + 60 * SECOND))
    ensures found.Some? && now < found.value.windowEnd && found.value.count < 30 && found.value.inFlight < 4 ==>
              After(found, Call(now))
              == Some(Window(found.value.count + 1, found.value.inFlight + 1, found.value.windowEnd))
    ensures found.Some? && found.value.inFlight > 0 ==>
              After(found, End) == Some(Window(found.value.count, found.value.inFlight - 1, found.value.windowEnd))
  {
  }

  /** What a prune drops: the windows that are over and have no update in flight, and nothing else. */
  lemma PruneDrops(m: map<int, Window>, now: int, user: int)
    ensures user in Pruned(m, now) <==> user in m && (now < m[user].windowEnd || m[user].inFlight > 0)
    ensures user in Pruned(m, now) ==> Pruned(m, now)[user] == m[user]
  {
  }

  /** Nobody in particular is not counted. */
  lemma AnonymousIsFree(m: map<int, Window>, now: int, m': map<int, Window>)
    requires Asked(m, 0, now, m') || Finished(m, 0, m')
    ensures m' == m
  {
  }

  // ---- All users over a run ----

  /** A call of the throttle for a user, or the end of an update that it admitted, with the windows
      after it. */
  datatype Done =
    | Asks(user: int, now: int, after: map<int, Window>)
    | Ends(user: int, after: map<int, Window>)

  /** What the throttle does over a run, with a clock that starts at `last`. */
  ghost predicate Log(m: map<int, Window>, last: int, run: seq<Done>)
    decreases |run|
  {
    run == [] ||
    match run[0]
    case Asks(user, now, after) => last <= now && Asked(m, user, now, after) && Log(after, now, run[1..])
    case Ends(user, after) => Finished(m, user, after) && Log(after, last, run[1..])
  }

  predicate AdmitsOf(m: map<int, Window>, d: Done, v: int) {
    d.Asks? && d.user == v && Admits(Opened(Find(m, v), d.now))
  }

  /** Only admitted updates end: `n` of user `v` are in flight. */
  predicate Matched(m: map<int, Window>, run: seq<Done>, v: int, n: nat)
    decreases |run|
  {
    run == [] ||
    if run[0].Ends? && run[0].user == v then n > 0 && Matched(run[0].after, run[1..], v, n - 1)
    else Matched(run[0].after, run[1..], v, if AdmitsOf(m, run[0], v) then n + 1 else n)
  }

  /** When updates of `v` are admitted. */
  function AdmittedAt(m: map<int, Window>, run: seq<Done>, v: int): seq<int>
    decreases |run|
  {
    if run == [] then []
    else (if AdmitsOf(m, run[0], v) then [run[0].now] else []) + AdmittedAt(run[0].after, run[1..], v)
  }

  function WindowsAfter(m: map<int, Window>, run: seq<Done>): map<int, Window> {
    if run == [] then m else run[|run|-1].after
  }

  /** What one operation means for user `v`. */
  function EventsOf(m: map<int, Window>, d: Done, v: int): seq<Event> {
    if d.user == v then (if d.Asks? then [Call(d.now)] else [End])
    else if d.Asks? && Find(d.after, v) != Find(m, v) then [Event.Prune(d.now)]
    else []
  }

  lemma OneOperation(s: State, m: map<int, Window>, last: int, d: Done, v: int) returns (t: State)
    requires v != 0 && s.window == Find(m, v)
    requires if d.Asks? then last <= d.now && Asked(m, d.user, d.now, d.after) else Finished(m, d.user, d.after)
    requires d.Ends? && d.user == v ==> s.inFlight > 0
    ensures Runs(s, last, EventsOf(m, d, v), t, if EventsOf(m, d, v) == [] || d.Ends? then last else d.now)
    ensures t.window == Find(d.after, v)
    ensures t.inFlight == s.inFlight + (if AdmitsOf(m, d, v) then 1 else if d.Ends? && d.user == v then -1 else 0)
    ensures Times(t.history) == Times(s.history) + (if AdmitsOf(m, d, v) then [d.now] else [])
  {
    var events := EventsOf(m, d, v);
    if events == [] {
      t := s;
    } else {
      assert Enabled(s, events[0]);
      t := Step(s, events[0]);
      assert events[1..] == [];
      assert Runs(t, Clock(events[0], last), [], t, Clock(events[0], last));
    }
  }

  lemma {:induction false} RunsBoth(
      s: State, a: int, first: seq<Event>, m: State, b: int, rest: seq<Event>, t: State, e: int)
    requires Runs(s, a, first, m, b) && Runs(m, b, rest, t, e)
    ensures Runs(s, a, first + rest, t, e)
    decreases |first|
  {
    hide Enabled, Step;
    if first == [] {
      assert first + rest == rest;
    } else {
      RunsBoth(Step(s, first[0]), Clock(first[0], a), first[1..], m, b, rest, t, e);
      assert (first + rest)[1..] == first[1..] + rest;
    }
  }

  /** Every run of the throttle is, for every user, a run of that user's events: with the user's
      window, the updates in flight and the admissions. */
  lemma {:induction false} EveryUserRuns(s: State, last: int, m: map<int, Window>, now: int, run: seq<Done>, v: int)
    returns (events: seq<Event>, t: State, end: int)
    requires v != 0 && s.window == Find(m, v) && last <= now
    requires Log(m, now, run) && Matched(m, run, v, s.inFlight)
    ensures Runs(s, last, events, t, end)
    ensures t.window == Find(WindowsAfter(m, run), v) && Times(t.history) == Times(s.history) + AdmittedAt(m, run, v)
    decreases |run|
  {
    hide Asked, Finished, Runs, Admits, Opened, EventsOf, Find;
    if run == [] {
      events, t, end := [], s, last;
      NoEvents(s, last);
    } else {
      var d := run[0];
      var mid := OneOperation(s, m, last, d, v);
      var first := EventsOf(m, d, v);
      var at := if first == [] || d.Ends? then last else d.now;
      var rest;
      rest, t, end := EveryUserRuns(mid, at, d.after, if d.Asks? then d.now else now, run[1..], v);
      RunsBoth(s, last, first, mid, at, rest, t, end);
      assert WindowsAfter(m, run) == WindowsAfter(d.after, run[1..]);
      events := first + rest;
    }
  }

  lemma NoEvents(s: State, last: int)
    ensures Runs(s, last, [], s, last)
  {
  }

  /** So over every run of the throttle, whoever else calls: a user's window stays in its bounds and
      a minute holds at most sixty of the user's admissions. */
  lemma BoundsOfEveryUser(start: int, run: seq<Done>, v: int, a: int)
    requires v != 0 && Log(map[], start, run) && Matched(map[], run, v, 0)
    ensures var w := Find(WindowsAfter(map[], run), v);
            w.Some? ==> w.value.inFlight <= 4 && w.value.inFlight <= w.value.count <= 30
    ensures Sum(AdmittedAt(map[], run, v), Within(Span(a, 60 * SECOND))) <= 60
  {
    var events, t, end := EveryUserRuns(INITIAL, start, map[], start, run, v);
    Bounds(start, events, t, end, a);
    assert Times(t.history) == AdmittedAt(map[], run, v);
  }

  // ---- Pruning is invisible ----

  /** From `now` on, two records of a user are as good as each other. */
  ghost predicate AsGood(x: Option<Window>, y: Option<Window>, now: int) {
    x == y || (x == None && y.Some? && Prunable(y.value, now))
  }

  /** Clock readings do not decrease, and only idle expired windows are removed. */
  ghost predicate Orderly(found: Option<Window>, last: int, events: seq<Event>)
    decreases |events|
  {
    events == [] ||
    (&& last <= Clock(events[0], last)
     && (events[0].Prune? ==> found.Some? && Prunable(found.value, events[0].now))
     && Orderly(After(found, events[0]), Clock(events[0], last), events[1..]))
  }

  /** The answers to the calls. */
  function Answers(found: Option<Window>, events: seq<Event>): seq<bool>
    decreases |events|
  {
    if events == [] then []
    else (if events[0].Call? then [Admits(Opened(found, events[0].now))] else [])
         + Answers(After(found, events[0]), events[1..])
  }

  function WithoutPrunes(events: seq<Event>): seq<Event> {
    if events == [] then []
    else (if events[0].Prune? then [] else [events[0]]) + WithoutPrunes(events[1..])
  }

  /** Removing windows changes no answer, ever after. */
  lemma {:induction false} PruneIsInvisible(x: Option<Window>, y: Option<Window>, last: int, events: seq<Event>)
    requires AsGood(x, y, last) && Orderly(x, last, events)
    ensures Answers(x, events) == Answers(y, WithoutPrunes(events))
    decreases |events|
  {
    if events != [] {
      var e, rest := events[0], WithoutPrunes(events[1..]);
      PruneIsInvisible(After(x, e), if e.Prune? then y else After(y, e), Clock(e, last), events[1..]);
      if !e.Prune? { assert WithoutPrunes(events) == [e] + rest && ([e] + rest)[1..] == rest; }
      else { assert WithoutPrunes(events) == rest; }
    }
  }

  // ---- True occupancy ----

  ghost predicate Exact(s: State) {
    s.inFlight == match s.window case None => 0 case Some(w) => w.inFlight
  }

  /** The call replaces an expired window that still has updates in flight. */
  predicate Replaces(s: State, e: Event) {
    e.Call? && s.window.Some? && Expired(s.window.value, e.now) && s.window.value.inFlight > 0
  }

  /** The record of updates in flight stays true across a step exactly unless a call replaces a
      busy window. */
  lemma ExactUnlessReplaced(s: State, e: Event)
    requires Exact(s) && Enabled(s, e)
    ensures Exact(Step(s, e)) <==> !Replaces(s, e)
  {
  }

  ghost predicate NeverReplaces(s: State, events: seq<Event>)
    decreases |events|
  {
    events == [] ||
    (&& !Replaces(s, events[0])
     && (Enabled(s, events[0]) ==> NeverReplaces(Step(s, events[0]), events[1..])))
  }

  /** So as long as no busy window is replaced, a user never occupies more than four slots. */
  lemma {:induction false} TrueOccupancy(s: State, last: int, events: seq<Event>, t: State, end: int)
    requires Inv(s, last) && Exact(s) && Runs(s, last, events, t, end) && NeverReplaces(s, events)
    ensures t.inFlight <= OCCUPANCY_LIMIT
    decreases |events|
  {
    if events != [] {
      InvStep(s, last, events[0]);
      ExactUnlessReplaced(s, events[0]);
      TrueOccupancy(Step(s, events[0]), Clock(events[0], last), events[1..], t, end);
    }
  }

  function Burst(now: int): seq<Event> { [Call(now), Call(now), Call(now), Call(now)] }

  lemma RunsCall(s: State, last: int, now: int, rest: seq<Event>, t: State, end: int)
    requires last <= now
    ensures Runs(s, last, [Call(now)] + rest, t, end) <==> Runs(Step(s, Call(now)), now, rest, t, end)
  {
    assert ([Call(now)] + rest)[1..] == rest;
  }

  lemma BurstRun(s: State, last: int, now: int) returns (t: State)
    requires last <= now
    ensures t == Step(Step(Step(Step(s, Call(now)), Call(now)), Call(now)), Call(now))
    ensures forall u, end :: Runs(s, last, Burst(now), u, end) <==> u == t && end == now
  {
    hide Step;
    var s1 := Step(s, Call(now));
    var s2 := Step(s1, Call(now));
    var s3 := Step(s2, Call(now));
    t := Step(s3, Call(now));
    forall u, end ensures Runs(s, last, Burst(now), u, end) <==> u == t && end == now {
      RunsCall(s3, now, now, [], u, end);
      RunsCall(s2, now, now, [Call(now)], u, end);
      RunsCall(s1, now, now, [Call(now), Call(now)], u, end);
      RunsCall(s, last, now, [Call(now), Call(now), Call(now)], u, end);
    }
  }

  /** From a state with a true record, four calls at once take the user above four slots exactly if
      they find a busy window to replace. */
  lemma BurstOverflowsIff(s: State, last: int, now: int)
    requires Inv(s, last) && Exact(s) && last <= now
    ensures (exists t :: Runs(s, last, Burst(now), t, now) && t.inFlight > OCCUPANCY_LIMIT) <==> Replaces(s, Call(now))
  {
    hide Inv, Runs;
    var t := BurstRun(s, last, now);
    if Replaces(s, Call(now)) {
      BusyInFlight(s, last);
      BurstOfFresh(s, now);
      assert Runs(s, last, Burst(now), t, now);
    } else {
      TrueInFlight(s, last);
      BurstOfTrue(s, now);
    }
  }

  lemma TrueInFlight(s: State, last: int)
    requires Inv(s, last) && Exact(s)
    ensures s.inFlight <= OCCUPANCY_LIMIT
  {
  }

  lemma BusyInFlight(s: State, last: int)
    requires Inv(s, last) && s.window.Some?
    ensures s.window.value.inFlight <= s.inFlight
  {
  }

  lemma BurstOfFresh(s: State, now: int)
    requires Replaces(s, Call(now))
    ensures Step(Step(Step(Step(s, Call(now)), Call(now)), Call(now)), Call(now)).inFlight
            == s.inFlight + OCCUPANCY_LIMIT
  {
    var s1 := Step(s, Call(now));
    assert s1.window == Some(Window(1, 1, now + RATE_WINDOW));
    var s2 := Step(s1, Call(now));
    assert s2.window == Some(Window(2, 2, now + RATE_WINDOW));
    var s3 := Step(s2, Call(now));
    assert s3.window == Some(Window(3, 3, now + RATE_WINDOW));
  }

  /** A call that replaces nothing keeps a true record and leaves no window to replace. */
  lemma CallOfTrue(s: State, now: int)
    requires Exact(s) && !Replaces(s, Call(now))
    ensures var t := Step(s, Call(now));
            Exact(t) && !Replaces(t, Call(now)) && (t.inFlight > s.inFlight ==> t.inFlight <= OCCUPANCY_LIMIT)
  {
  }

  lemma BurstOfTrue(s: State, now: int)
    requires Exact(s) && !Replaces(s, Call(now))
    ensures var t := Step(Step(Step(Step(s, Call(now)), Call(now)), Call(now)), Call(now));
            t.inFlight > s.inFlight ==> t.inFlight <= OCCUPANCY_LIMIT
  {
    hide Step, Exact, Replaces;
    var s1 := Step(s, Call(now));
    var s2 := Step(s1, Call(now));
    var s3 := Step(s2, Call(now));
    CallOfTrue(s, now);
    CallOfTrue(s1, now);
    CallOfTrue(s2, now);
    CallOfTrue(s3, now);
  }

  /** Four calls at once in place of the call at `n` take the user above four slots. */
  ghost predicate OverflowsAt(s: State, last: int, events: seq<Event>, n: nat) {
    n < |events| && events[n].Call?
    && exists t :: Runs(s, last, events[..n] + Burst(events[n].now), t, events[n].now) && t.inFlight > OCCUPANCY_LIMIT
  }

  lemma OverflowsLater(s: State, last: int, events: seq<Event>, n: nat)
    requires events != [] && Enabled(s, events[0]) && last <= Clock(events[0], last)
    ensures OverflowsAt(s, last, events, n + 1)
            <==> OverflowsAt(Step(s, events[0]), Clock(events[0], last), events[1..], n)
  {
    hide Step;
    if n + 1 < |events| && events[n+1].Call? {
      var now := events[n+1].now;
      var run, rest := events[..n+1] + Burst(now), events[1..][..n] + Burst(now);
      assert events[1..][n] == events[n+1];
      assert run[0] == events[0] && run[1..] == rest;
      assert forall t :: Runs(s, last, run, t, now) <==> Runs(Step(s, events[0]), Clock(events[0], last), rest, t, now);
    }
  }

  lemma OverflowsNow(s: State, last: int, events: seq<Event>)
    requires Inv(s, last) && Exact(s) && events != [] && last <= Clock(events[0], last)
    ensures OverflowsAt(s, last, events, 0) <==> Replaces(s, events[0])
  {
    hide Inv, Exact;
    if events[0].Call? {
      var now := events[0].now;
      assert events[..0] + Burst(now) == Burst(now);
      BurstOverflowsIff(s, last, now);
    }
  }

  /** So a run can be turned into one that takes the user above four slots, by repeating one of its
      calls on the spot, exactly if it replaces a busy window. */
  lemma {:induction false} OverflowIffReplaced(s: State, last: int, events: seq<Event>, t: State, end: int)
    requires Inv(s, last) && Exact(s) && Runs(s, last, events, t, end)
    ensures (exists n: nat :: OverflowsAt(s, last, events, n)) <==> !NeverReplaces(s, events)
    decreases |events|
  {
    hide Inv, Exact, Step, Replaces, OverflowsAt, Enabled;
    if events == [] {
      NoOverflow(s, last);
    } else {
      var e := events[0];
      OverflowsNow(s, last, events);
      if !Replaces(s, e) {
        InvStep(s, last, e);
        ExactUnlessReplaced(s, e);
        var s', last', rest := Step(s, e), Clock(e, last), events[1..];
        OverflowIffReplaced(s', last', rest, t, end);
        forall n: nat ensures OverflowsAt(s, last, events, n + 1) <==> OverflowsAt(s', last', rest, n) {
          OverflowsLater(s, last, events, n);
        }
        if n: nat :| OverflowsAt(s', last', rest, n) { assert OverflowsAt(s, last, events, n + 1); }
        if n: nat :| OverflowsAt(s, last, events, n) { assert n > 0 && OverflowsAt(s', last', rest, n - 1); }
      }
    }
  }

  lemma NoOverflow(s: State, last: int)
    ensures forall n :: !OverflowsAt(s, last, [], n)
  {
  }

  const OVERLAP: seq<Event> := [Call(0), Call(0), Call(0), Call(0), Call(MINUTE)]

  /** Four slow updates, and a fifth in the next minute: five in flight at once. */
  lemma FiveInFlight() returns (t: State)
    ensures Runs(INITIAL, 0, OVERLAP, t, MINUTE) && t.inFlight == OCCUPANCY_LIMIT + 1
  {
    var s1 := Step(INITIAL, Call(0));
    var s2 := Step(s1, Call(0));
    var s3 := Step(s2, Call(0));
    var s4 := Step(s3, Call(0));
    t := Step(s4, Call(MINUTE));
    assert OVERLAP[1..] == [Call(0), Call(0), Call(0), Call(MINUTE)];
    assert OVERLAP[1..][1..] == [Call(0), Call(0), Call(MINUTE)];
    assert OVERLAP[1..][1..][1..] == [Call(0), Call(MINUTE)];
    assert OVERLAP[1..][1..][1..][1..] == [Call(MINUTE)];
    assert Runs(s4, 0, [Call(MINUTE)], t, MINUTE);
    assert Runs(s3, 0, [Call(0), Call(MINUTE)], t, MINUTE);
    assert Runs(s2, 0, [Call(0), Call(0), Call(MINUTE)], t, MINUTE);
  }
}

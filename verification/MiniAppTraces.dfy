/** The Mini App limiter over traces: what one subject and class get out of it, whatever the order
    of the clock readings (internal/miniapp/ratelimit.go, lines 102-180). */
module MiniAppTraces {
  import opened Basics
  import opened Tally
  import opened Admissions
  import opened MiniAppLimiter

  /** The locked section of a call: the clock reading that it works with, its answer and the table
      after it. */
  datatype Call = Call(key: Key, now: int, answer: Answer, after: Table)

  const EMPTY: Table := Table(map[], None)

  /** Locked sections in the order in which they got the lock.  A call reads the clock before it
      takes the lock, so nothing is said about the order of the readings. */
  ghost predicate Trace(c: Config, t: Table, calls: seq<Call>)
    decreases |calls|
  {
    calls == [] ||
    (&& Called(c, t, calls[0].key, calls[0].now, calls[0].answer, calls[0].after)
     && Trace(c, calls[0].after, calls[1..]))
  }

  /** The end of a trace. */
  function Final(t: Table, calls: seq<Call>): Table {
    if calls == [] then t else calls[|calls|-1].after
  }

  function Tidied(c: Config, t: Table, now: int): Table {
    if CleanupDue(c, t, now) then Cleaned(c, t, now) else t
  }

  /** The bucket that a call with `key` finds. */
  function Found(c: Config, t: Table, key: Key, now: int): Option<Bucket> {
    Find(Tidied(c, t, now), key)
  }

  /** A call counts on the bucket that it finds and leaves it counted. */
  lemma OwnCall(c: Config, t: Table, call: Call)
    requires Called(c, t, call.key, call.now, call.answer, call.after) && !call.key.class_.NoClass?
    ensures var (b, a) := Decide(c, Found(c, t, call.key, call.now), call.key.class_, call.now);
            call.answer == a && Find(call.after, call.key) == Some(b)
  {
    var key, t' := call.key, Tidied(c, t, call.now);
    var v :| Prepared(c, t, key, call.now, v) &&
      var (b, a) := Decide(c, Find(v, key), key.class_, call.now);
      call.answer == a && call.after == v.(buckets := v.buckets[key := b]);
    if MustEvict(c, t', key) {
      var victim :| IsOldest(t', victim) && v == t'.(buckets := t'.buckets - {victim});
    }
  }

  /** Any other call leaves the bucket of `key` alone, drops it in a cleanup, or evicts it. */
  lemma OtherCall(c: Config, t: Table, call: Call, key: Key)
    requires Called(c, t, call.key, call.now, call.answer, call.after) && call.key != key
    ensures Find(call.after, key) == Find(t, key) || Find(call.after, key) == None
  {
    if !call.key.class_.NoClass? {
      var t' := Tidied(c, t, call.now);
      var v :| Prepared(c, t, call.key, call.now, v) &&
        var (b, a) := Decide(c, Find(v, call.key), call.key.class_, call.now);
        call.answer == a && call.after == v.(buckets := v.buckets[call.key := b]);
      if MustEvict(c, t', call.key) {
        var victim :| IsOldest(t', victim) && v == t'.(buckets := t'.buckets - {victim});
      }
    }
  }

  // ---- The latest bucket of a key ----

  /** A bucket as calls leave it, in whatever order their readings come. */
  ghost predicate Sound(c: Config, key: Key, b: Bucket) {
    b.windowStart <= b.lastSeen < b.windowStart + c.window && 1 <= b.count <= c.Limit(key.class_)
  }

  /** `latest` is the bucket that the last call with `key` left, if there was one; the table still
      has it or has dropped it. */
  ghost predicate Follows(c: Config, key: Key, t: Table, latest: Option<Bucket>) {
    && (latest.Some? ==> Sound(c, key, latest.value))
    && (key in t.buckets ==> latest == Find(t, key))
  }

  function Latest(latest: Option<Bucket>, call: Call, key: Key): Option<Bucket> {
    if call.key == key then Find(call.after, key) else latest
  }

  lemma FoundIsLatest(c: Config, key: Key, t: Table, latest: Option<Bucket>, now: int)
    requires Follows(c, key, t, latest)
    ensures Found(c, t, key, now) == None || Found(c, t, key, now) == latest
  {
  }

  lemma DecideSound(c: Config, key: Key, found: Option<Bucket>, now: int)
    requires c.Valid() && (found.Some? ==> Sound(c, key, found.value))
    ensures Sound(c, key, Decide(c, found, key.class_, now).0)
  {
  }

  lemma FollowsCall(c: Config, key: Key, t: Table, latest: Option<Bucket>, call: Call)
    requires c.Valid() && !key.class_.NoClass? && Follows(c, key, t, latest)
    requires Called(c, t, call.key, call.now, call.answer, call.after)
    ensures Follows(c, key, call.after, Latest(latest, call, key))
  {
    hide Called, Decide, Found;
    if call.key == key {
      OwnCall(c, t, call);
      FoundIsLatest(c, key, t, latest, call.now);
      DecideSound(c, key, Found(c, t, key, call.now), call.now);
    } else {
      OtherCall(c, t, call, key);
    }
  }

  function LatestAfter(latest: Option<Bucket>, calls: seq<Call>, key: Key): Option<Bucket>
    decreases |calls|
  {
    if calls == [] then latest else LatestAfter(Latest(latest, calls[0], key), calls[1..], key)
  }

  /** A trace can be cut in two anywhere. */
  lemma {:induction false} CutTrace(c: Config, t: Table, latest: Option<Bucket>, calls: seq<Call>, key: Key, n: nat)
    requires c.Valid() && !key.class_.NoClass? && Trace(c, t, calls) && Follows(c, key, t, latest) && n <= |calls|
    ensures Trace(c, Final(t, calls[..n]), calls[n..])
    ensures Follows(c, key, Final(t, calls[..n]), LatestAfter(latest, calls[..n], key))
    ensures NeverEarly(c, t, latest, calls, key) ==>
              NeverEarly(c, Final(t, calls[..n]), LatestAfter(latest, calls[..n], key), calls[n..], key)
    decreases |calls|
  {
    hide Called, Early, Follows, Latest;
    if n == 0 {
      assert calls[0..] == calls;
    } else {
      FollowsCall(c, key, t, latest, calls[0]);
      CutTrace(c, calls[0].after, Latest(latest, calls[0], key), calls[1..], key, n - 1);
      assert calls[..n][1..] == calls[1..][..n-1] && calls[n..] == calls[1..][n-1..];
    }
  }

  // ---- Windows ----

  /** A call that finds this bucket opens a window of its own. */
  predicate Opens(c: Config, found: Option<Bucket>, now: int) {
    found.None? || now - found.value.windowStart >= c.window || now < found.value.windowStart
  }

  predicate OpensAt(c: Config, t: Table, call: Call, key: Key) {
    call.key == key && Opens(c, Found(c, t, key, call.now), call.now)
  }

  /** The call opens a window of `key` with a reading before the end of the window before. */
  predicate Early(c: Config, t: Table, latest: Option<Bucket>, call: Call, key: Key) {
    OpensAt(c, t, call, key) && latest.Some? && call.now < latest.value.windowStart + c.window
  }

  predicate NeverEarly(c: Config, t: Table, latest: Option<Bucket>, calls: seq<Call>, key: Key)
    decreases |calls|
  {
    calls == [] ||
    (&& !Early(c, t, latest, calls[0], key)
     && NeverEarly(c, calls[0].after, Latest(latest, calls[0], key), calls[1..], key))
  }

  /** The starts of the windows that a trace opens for `key`. */
  function Openings(c: Config, t: Table, calls: seq<Call>, key: Key): seq<int>
    decreases |calls|
  {
    if calls == [] then []
    else (if OpensAt(c, t, calls[0], key) then [calls[0].now] else []) + Openings(c, calls[0].after, calls[1..], key)
  }

  predicate FarApart(starts: seq<int>, width: int) {
    forall i, j :: 0 <= i < j < |starts| ==> starts[i] + width <= starts[j]
  }

  function StartOf(latest: Option<Bucket>): seq<int> {
    match latest
    case None => []
    case Some(b) => [b.windowStart]
  }

  lemma FarApartShort(s: seq<int>, width: int)
    ensures |s| <= 1 ==> FarApart(s, width)
  {
  }

  lemma FarApartMore(first: int, second: int, rest: seq<int>, width: int)
    requires width > 0
    ensures FarApart([first, second] + rest, width) <==> first + width <= second && FarApart([second] + rest, width)
  {
    var all, tail := [first, second] + rest, [second] + rest;
    assert forall i :: 0 <= i < |tail| ==> tail[i] == all[i+1];
    if FarApart(all, width) {
      assert all[0] + width <= all[1];
      forall i, j | 0 <= i < j < |tail| ensures tail[i] + width <= tail[j] { assert all[i+1] + width <= all[j+1]; }
    }
    if first + width <= second && FarApart(tail, width) {
      forall i, j | 0 <= i < j < |all| ensures all[i] + width <= all[j] {
        if i > 0 { assert tail[i-1] + width <= tail[j-1]; } else if j > 1 { assert tail[0] + width <= tail[j-1]; }
      }
    }
  }

  /** The window of the bucket that a call leaves. */
  lemma WindowOfCall(c: Config, key: Key, t: Table, latest: Option<Bucket>, call: Call)
    requires c.Valid() && !key.class_.NoClass? && Follows(c, key, t, latest) && call.key == key
    requires Called(c, t, call.key, call.now, call.answer, call.after)
    ensures var b := Find(call.after, key);
            && b.Some?
            && (OpensAt(c, t, call, key) ==>
                  b.value == Bucket(call.now, call.now, 1) && call.answer == Allowed)
            && (!OpensAt(c, t, call, key) ==>
                  && latest.Some? && b.value.windowStart == latest.value.windowStart
                  && latest.value.windowStart <= call.now < latest.value.windowStart + c.window
                  && call.answer.Allowed? == (latest.value.count < c.Limit(key.class_))
                  && b.value.count == latest.value.count + if call.answer.Allowed? then 1 else 0)
  {
    hide Called, Found;
    OwnCall(c, t, call);
    FoundIsLatest(c, key, t, latest, call.now);
  }

  /** The windows of a key stay apart, over any trace and whatever is evicted, exactly if no call
      opens one early. */
  lemma {:induction false} WindowsApartIff(c: Config, t: Table, latest: Option<Bucket>, calls: seq<Call>, key: Key)
    requires c.Valid() && !key.class_.NoClass? && Trace(c, t, calls) && Follows(c, key, t, latest)
    ensures NeverEarly(c, t, latest, calls, key)
            <==> FarApart(StartOf(latest) + Openings(c, t, calls, key), c.window)
    decreases |calls|
  {
    FarApartShort(StartOf(latest), c.window);
    hide Called, Follows, OpensAt, FarApart;
    if calls == [] {
      assert StartOf(latest) + [] == StartOf(latest);
    } else {
      var call, latest' := calls[0], Latest(latest, calls[0], key);
      var rest := Openings(c, call.after, calls[1..], key);
      FollowsCall(c, key, t, latest, call);
      WindowsApartIff(c, call.after, latest', calls[1..], key);
      OpensOwn(c, t, call, key);
      if call.key == key { WindowOfCall(c, key, t, latest, call); }
      if OpensAt(c, t, call, key) {
        assert StartOf(latest') == [call.now];
        if latest.Some? {
          FarApartMore(latest.value.windowStart, call.now, rest, c.window);
          assert StartOf(latest) + ([call.now] + rest) == [latest.value.windowStart, call.now] + rest;
        } else {
          assert StartOf(latest) + ([call.now] + rest) == [call.now] + rest;
        }
      } else {
        assert StartOf(latest') == StartOf(latest) && [] + rest == rest;
      }
    }
  }

  lemma OpensOwn(c: Config, t: Table, call: Call, key: Key)
    ensures OpensAt(c, t, call, key) ==> call.key == key
  {
  }

  /** Which readings open a window early: if the call finds the bucket, exactly those older than its
      window; if not, exactly those before the end of the window that the bucket had. */
  lemma EarlyIff(c: Config, key: Key, t: Table, latest: Option<Bucket>, call: Call)
    requires c.Valid() && Follows(c, key, t, latest) && call.key == key
    ensures var found := Found(c, t, key, call.now);
            Early(c, t, latest, call, key)
            <==> if found.Some? then call.now < found.value.windowStart
                 else latest.Some? && call.now < latest.value.windowStart + c.window
  {
    hide Found;
    FoundIsLatest(c, key, t, latest, call.now);
  }

  // ---- How much a key gets ----

  function Admits(call: Call, key: Key): seq<Admission> {
    if call.key == key && call.answer.Allowed? && key in call.after.buckets
    then [Admission(call.now, call.after.buckets[key].windowStart)] else []
  }

  /** The admissions of a key in a trace, each with the window that counted it. */
  function Admitted(calls: seq<Call>, key: Key): seq<Admission>
    decreases |calls|
  {
    if calls == [] then [] else Admits(calls[0], key) + Admitted(calls[1..], key)
  }

  /** The admissions so far, and the window of the latest bucket among them. */
  ghost predicate HistoryInv(c: Config, key: Key, latest: Option<Bucket>, h: seq<Admission>) {
    && c.Valid() && Apart(h, c.window, c.Limit(key.class_))
    && match latest
       case None => h == []
       case Some(b) => Current(h, c.window, b.windowStart, b.count)
  }

  lemma HistoryCall(c: Config, key: Key, t: Table, latest: Option<Bucket>, call: Call, h: seq<Admission>)
    requires c.Valid() && !key.class_.NoClass? && Follows(c, key, t, latest)
    requires Called(c, t, call.key, call.now, call.answer, call.after)
    requires HistoryInv(c, key, latest, h) && !Early(c, t, latest, call, key)
    ensures HistoryInv(c, key, Latest(latest, call, key), h + Admits(call, key))
  {
    hide Called, Apart, OpensAt;
    assert h + [] == h;
    if call.key == key {
      WindowOfCall(c, key, t, latest, call);
      var limit := c.Limit(key.class_);
      if OpensAt(c, t, call, key) {
        if latest.Some? { NewWindow(h, c.window, latest.value.windowStart, latest.value.count, call.now); }
        AdmitOne(h, c.window, limit, call.now, 0, call.now);
      } else if call.answer.Allowed? {
        AdmitOne(h, c.window, limit, latest.value.windowStart, latest.value.count, call.now);
      }
    }
  }

  lemma {:induction false} HistoryTrace(
      c: Config, t: Table, latest: Option<Bucket>, calls: seq<Call>, key: Key, h: seq<Admission>)
    requires c.Valid() && !key.class_.NoClass? && Trace(c, t, calls) && Follows(c, key, t, latest)
    requires NeverEarly(c, t, latest, calls, key) && HistoryInv(c, key, latest, h)
    ensures Apart(h + Admitted(calls, key), c.window, c.Limit(key.class_))
    decreases |calls|
  {
    hide Called, Follows, Early, Apart, Admits, Latest;
    if calls == [] {
      assert h + [] == h;
    } else {
      FollowsCall(c, key, t, latest, calls[0]);
      HistoryCall(c, key, t, latest, calls[0], h);
      var h' := h + Admits(calls[0], key);
      HistoryTrace(c, calls[0].after, Latest(latest, calls[0], key), calls[1..], key, h');
      assert h' + Admitted(calls[1..], key) == h + Admitted(calls, key);
    }
  }

  lemma NothingApart(c: Config, key: Key)
    requires c.Valid()
    ensures Apart([], c.window, c.Limit(key.class_))
  {
  }

  /** From the empty table on, in every trace in which no window of the key opens early: at most its
      limit in one window, and at most twice its limit in any interval as long as a window. */
  lemma TwiceTheLimit(c: Config, calls: seq<Call>, key: Key, a: int)
    requires c.Valid() && !key.class_.NoClass? && Trace(c, EMPTY, calls)
    requires NeverEarly(c, EMPTY, None, calls, key)
    ensures Apart(Admitted(calls, key), c.window, c.Limit(key.class_))
    ensures Sum(Times(Admitted(calls, key)), Within(Span(a, c.window))) <= 2 * c.Limit(key.class_)
  {
    hide Apart;
    NothingApart(c, key);
    HistoryTrace(c, EMPTY, None, calls, key, []);
    assert [] + Admitted(calls, key) == Admitted(calls, key);
    TwoWindows(Admitted(calls, key), c.window, c.Limit(key.class_), a);
  }

  /** And the condition is needed: a call that finds its bucket keeps the history in windows that do
      not overlap exactly if its reading is not older than the bucket's window. */
  lemma HistoryApartIff(c: Config, key: Key, t: Table, latest: Option<Bucket>, call: Call, h: seq<Admission>)
    requires c.Valid() && !key.class_.NoClass? && Follows(c, key, t, latest) && call.key == key
    requires Called(c, t, call.key, call.now, call.answer, call.after)
    requires HistoryInv(c, key, latest, h) && Found(c, t, key, call.now).Some?
    ensures Apart(h + Admits(call, key), c.window, c.Limit(key.class_))
            <==> Found(c, t, key, call.now).value.windowStart <= call.now
  {
    hide Called, Found;
    FoundIsLatest(c, key, t, latest, call.now);
    EarlyIff(c, key, t, latest, call);
    var b := latest.value;
    if b.windowStart <= call.now {
      HistoryCall(c, key, t, latest, call, h);
    } else {
      WindowOfCall(c, key, t, latest, call);
      var g := h + Admits(call, key);
      assert g[|h|].start == call.now && g[|h|-1] == h[|h|-1] && h[|h|-1].start == b.windowStart;
    }
  }

  /** The limit is that of the class. */
  lemma ClassBounds(c: Config, calls: seq<Call>, key: Key, a: int)
    requires c.Valid() && !key.class_.NoClass? && Trace(c, EMPTY, calls)
    requires NeverEarly(c, EMPTY, None, calls, key)
    ensures Sum(Times(Admitted(calls, key)), Within(Span(a, c.window)))
            <= 2 * match key.class_
                   case Write => c.writeLimit case AuthFailure => c.authFailureLimit case _ => c.readLimit
  {
    TwiceTheLimit(c, calls, key, a);
  }

  /** A call without a class is never refused and never counted. */
  lemma UnclassifiedIsFree(c: Config, t: Table, call: Call)
    requires Called(c, t, call.key, call.now, call.answer, call.after) && call.key.class_.NoClass?
    ensures call.answer.Allowed? && call.after == t
  {
  }

  /** And no less than that: while no window opens early, a call is refused exactly if the window that
      is open has had all admissions of its class. */
  lemma RefusedIffFull(c: Config, key: Key, t: Table, latest: Option<Bucket>, call: Call, h: seq<Admission>)
    requires c.Valid() && !key.class_.NoClass? && Follows(c, key, t, latest) && call.key == key
    requires Called(c, t, call.key, call.now, call.answer, call.after)
    requires HistoryInv(c, key, latest, h) && !Early(c, t, latest, call, key)
    ensures call.answer.Refused?
            <==> && latest.Some? && call.now < latest.value.windowStart + c.window
                 && Sum(h, StartsAt(latest.value.windowStart))
                    == match key.class_
                       case Write => c.writeLimit case AuthFailure => c.authFailureLimit case _ => c.readLimit
  {
    hide Called;
    WindowOfCall(c, key, t, latest, call);
    if latest.Some? { CurrentCounts(h, c.window, latest.value.windowStart, latest.value.count); }
  }

  // ---- The size and the age of the table ----

  /** What a cleanup keeps, and when there is one. */
  lemma TidiedKeeps(c: Config, t: Table, now: int, key: Key)
    ensures var due := t.lastCleanup.None? || now - t.lastCleanup.value >= c.bucketTtl || |t.buckets| >= c.maxBuckets;
            && (key in Tidied(c, t, now).buckets
                <==> key in t.buckets && (due ==> 0 <= now - t.buckets[key].lastSeen < c.bucketTtl))
            && (key in Tidied(c, t, now).buckets ==> Tidied(c, t, now).buckets[key] == t.buckets[key])
  {
  }

  /** A bucket is evicted only from a table that is full after a cleanup, for a key that is new; no
      other bucket was last seen before it, and no other is lost. */
  lemma EvictionIsLastResort(c: Config, t: Table, call: Call, key: Key)
    requires Called(c, t, call.key, call.now, call.answer, call.after) && Evicts(c, t, call, key)
    ensures var t' := Tidied(c, t, call.now);
            && |t'.buckets| >= c.maxBuckets && call.key !in t'.buckets
            && (forall k :: k in t'.buckets ==> t'.buckets[key].lastSeen <= t'.buckets[k].lastSeen)
            && (forall k :: k in t'.buckets && k != key ==> k in call.after.buckets)
  {
    var t' := Tidied(c, t, call.now);
    var v :| Prepared(c, t, call.key, call.now, v) &&
      var (b, a) := Decide(c, Find(v, call.key), call.key.class_, call.now);
      call.answer == a && call.after == v.(buckets := v.buckets[call.key := b]);
    if MustEvict(c, t', call.key) {
      var victim :| IsOldest(t', victim) && v == t'.(buckets := t'.buckets - {victim});
    }
  }

  /** Everything in the table was seen less than a lifetime before the last cleanup, or later. */
  ghost predicate CleanedSince(c: Config, t: Table) {
    && (t.lastCleanup.None? ==> t.buckets == map[])
    && (t.lastCleanup.Some? ==>
          forall k :: k in t.buckets ==> t.lastCleanup.value - t.buckets[k].lastSeen < c.bucketTtl)
  }

  lemma CleanedSinceCall(c: Config, t: Table, call: Call, before: int)
    requires c.Valid() && CleanedSince(c, t)
    requires (t.lastCleanup.Some? ==> t.lastCleanup.value <= before) && before <= call.now
    requires Called(c, t, call.key, call.now, call.answer, call.after)
    ensures CleanedSince(c, call.after)
    ensures call.after.lastCleanup.Some? ==> call.after.lastCleanup.value <= call.now
    ensures !call.key.class_.NoClass? ==>
              forall k :: k in call.after.buckets ==> call.now - call.after.buckets[k].lastSeen < 2 * c.bucketTtl
  {
    if !call.key.class_.NoClass? {
      var t' := Tidied(c, t, call.now);
      var v :| Prepared(c, t, call.key, call.now, v) &&
        var (b, a) := Decide(c, Find(v, call.key), call.key.class_, call.now);
        call.answer == a && call.after == v.(buckets := v.buckets[call.key := b]);
      assert forall k :: k in v.buckets ==> k in t'.buckets && v.buckets[k] == t'.buckets[k];
    }
  }

  /** Idle buckets go: with readings that never decrease, no bucket that a counted call leaves behind
      was last seen two lifetimes ago. */
  lemma {:induction false} NoOldBuckets(c: Config, t: Table, calls: seq<Call>, start: int)
    requires c.Valid() && Trace(c, t, calls) && Ordered(calls, start)
    requires CleanedSince(c, t) && (t.lastCleanup.Some? ==> t.lastCleanup.value <= start)
    ensures forall i :: 0 <= i < |calls| && !calls[i].key.class_.NoClass? ==>
              forall k :: k in calls[i].after.buckets ==>
                calls[i].now - calls[i].after.buckets[k].lastSeen < 2 * c.bucketTtl
    decreases |calls|
  {
    hide Called, CleanedSince;
    if calls != [] {
      CleanedSinceCall(c, t, calls[0], start);
      NoOldBuckets(c, calls[0].after, calls[1..], calls[0].now);
      assert forall i :: 1 <= i < |calls| ==> calls[i] == calls[1..][i-1];
    }
  }

  /** The reading of the last call with `key`. */
  function LastCall(calls: seq<Call>, key: Key): Option<int> {
    if calls == [] then None
    else if calls[|calls|-1].key == key then Some(calls[|calls|-1].now)
    else LastCall(calls[..|calls|-1], key)
  }

  lemma SeenByCall(c: Config, t: Table, call: Call, key: Key)
    requires Called(c, t, call.key, call.now, call.answer, call.after) && !key.class_.NoClass?
    ensures call.key == key ==> key in call.after.buckets && call.after.buckets[key].lastSeen == call.now
    ensures call.key != key && key in call.after.buckets ==>
              key in t.buckets && call.after.buckets[key].lastSeen == t.buckets[key].lastSeen
  {
    if !call.key.class_.NoClass? {
      var t' := Tidied(c, t, call.now);
      var v :| Prepared(c, t, call.key, call.now, v) &&
        var (b, a) := Decide(c, Find(v, call.key), call.key.class_, call.now);
        call.answer == a && call.after == v.(buckets := v.buckets[call.key := b]);
      assert forall k :: k in v.buckets ==> k in t'.buckets && v.buckets[k] == t'.buckets[k];
    }
  }

  /** What idleness and eviction go by: a bucket was last seen at the last call with its key, admitted
      or refused. */
  lemma {:induction false} SeenAtLastCall(c: Config, calls: seq<Call>, key: Key)
    requires Trace(c, EMPTY, calls) && !key.class_.NoClass? && key in Final(EMPTY, calls).buckets
    ensures LastCall(calls, key) == Some(Final(EMPTY, calls).buckets[key].lastSeen)
  {
    hide Called;
    if calls != [] {
      var n := |calls| - 1;
      TraceLast(c, EMPTY, calls);
      SeenByCall(c, Final(EMPTY, calls[..n]), calls[n], key);
      if calls[n].key != key { SeenAtLastCall(c, calls[..n], key); }
    }
  }

  lemma {:induction false} TraceLast(c: Config, t: Table, calls: seq<Call>)
    requires Trace(c, t, calls) && calls != []
    ensures var n := |calls| - 1;
            && Trace(c, t, calls[..n])
            && Called(c, Final(t, calls[..n]), calls[n].key, calls[n].now, calls[n].answer, calls[n].after)
    decreases |calls|
  {
    hide Called;
    if |calls| > 1 {
      TraceLast(c, calls[0].after, calls[1..]);
      assert calls[1..][..|calls|-2] == calls[..|calls|-1][1..];
    }
  }

  // ---- Cleaning up is invisible ----

  /** The answers to the calls with `key`, had its bucket `kept` never been cleaned up or evicted. */
  function UncleanedAnswers(c: Config, kept: Option<Bucket>, calls: seq<Call>, key: Key): seq<Answer>
    decreases |calls|
  {
    if calls == [] then []
    else if calls[0].key == key then
      var (b, a) := Decide(c, kept, key.class_, calls[0].now);
      [a] + UncleanedAnswers(c, Some(b), calls[1..], key)
    else UncleanedAnswers(c, kept, calls[1..], key)
  }

  function Answers(calls: seq<Call>, key: Key): seq<Answer>
    decreases |calls|
  {
    if calls == [] then []
    else (if calls[0].key == key then [calls[0].answer] else []) + Answers(calls[1..], key)
  }

  /** Not only the answers but all buckets of `key` are as if none had been cleaned up or evicted. */
  predicate AsUncleaned(c: Config, kept: Option<Bucket>, calls: seq<Call>, key: Key)
    decreases |calls|
  {
    calls == [] ||
    if calls[0].key == key then
      && (Find(calls[0].after, key), calls[0].answer)
         == (var (b, a) := Decide(c, kept, key.class_, calls[0].now); (Some(b), a))
      && AsUncleaned(c, Find(calls[0].after, key), calls[1..], key)
    else AsUncleaned(c, kept, calls[1..], key)
  }

  /** The call misses its bucket although the window of that is not over. */
  predicate Misses(c: Config, t: Table, latest: Option<Bucket>, call: Call, key: Key) {
    && call.key == key && latest.Some? && Found(c, t, key, call.now).None?
    && latest.value.windowStart <= call.now < latest.value.windowStart + c.window
  }

  predicate NeverMisses(c: Config, t: Table, latest: Option<Bucket>, calls: seq<Call>, key: Key)
    decreases |calls|
  {
    calls == [] ||
    (&& !Misses(c, t, latest, calls[0], key)
     && NeverMisses(c, calls[0].after, Latest(latest, calls[0], key), calls[1..], key))
  }

  lemma MissesIff(c: Config, key: Key, t: Table, latest: Option<Bucket>, now: int)
    requires c.Valid() && Follows(c, key, t, latest)
    ensures Decide(c, Found(c, t, key, now), key.class_, now) == Decide(c, latest, key.class_, now)
            <==> !(latest.Some? && Found(c, t, key, now).None?
                   && latest.value.windowStart <= now < latest.value.windowStart + c.window)
  {
    hide Found;
    FoundIsLatest(c, key, t, latest, now);
  }

  /** Cleanups and evictions are invisible to a key, over any trace, exactly if none of its calls
      misses a bucket whose window is not over. */
  lemma {:induction false} CleanupIsInvisibleIff(
      c: Config, t: Table, latest: Option<Bucket>, calls: seq<Call>, key: Key)
    requires c.Valid() && !key.class_.NoClass? && Trace(c, t, calls) && Follows(c, key, t, latest)
    ensures AsUncleaned(c, latest, calls, key) <==> NeverMisses(c, t, latest, calls, key)
    decreases |calls|
  {
    hide Called, Follows, Decide, Found;
    if calls != [] {
      var call := calls[0];
      FollowsCall(c, key, t, latest, call);
      CleanupIsInvisibleIff(c, call.after, Latest(latest, call, key), calls[1..], key);
      if call.key == key {
        OwnCall(c, t, call);
        MissesIff(c, key, t, latest, call.now);
      }
    }
  }

  lemma {:induction false} AsUncleanedAnswers(c: Config, kept: Option<Bucket>, calls: seq<Call>, key: Key)
    requires AsUncleaned(c, kept, calls, key)
    ensures Answers(calls, key) == UncleanedAnswers(c, kept, calls, key)
    decreases |calls|
  {
    hide Decide;
    if calls != [] {
      AsUncleanedAnswers(c, if calls[0].key == key then Find(calls[0].after, key) else kept, calls[1..], key);
    }
  }

  lemma {:induction false} NeverEarlyMisses(c: Config, t: Table, latest: Option<Bucket>, calls: seq<Call>, key: Key)
    requires NeverEarly(c, t, latest, calls, key)
    ensures NeverMisses(c, t, latest, calls, key)
    decreases |calls|
  {
    hide Found, Latest;
    if calls != [] {
      NeverEarlyMisses(c, calls[0].after, Latest(latest, calls[0], key), calls[1..], key);
    }
  }

  /** So while no window of the key opens early, its calls get the answers that they would get if
      nothing were ever cleaned up or evicted. */
  lemma CleanupIsInvisible(c: Config, t: Table, latest: Option<Bucket>, calls: seq<Call>, key: Key)
    requires c.Valid() && !key.class_.NoClass? && Trace(c, t, calls) && Follows(c, key, t, latest)
    requires NeverEarly(c, t, latest, calls, key)
    ensures Answers(calls, key) == UncleanedAnswers(c, latest, calls, key)
  {
    NeverEarlyMisses(c, t, latest, calls, key);
    CleanupIsInvisibleIff(c, t, latest, calls, key);
    AsUncleanedAnswers(c, latest, calls, key);
  }

  // ---- Readings that are never early ----

  /** The call throws the bucket of `key` out to make room. */
  predicate Evicts(c: Config, t: Table, call: Call, key: Key) {
    !call.key.class_.NoClass? && key in Tidied(c, t, call.now).buckets && key !in call.after.buckets
  }

  /** The call counts on the bucket of `key` or decides whether it is idle. */
  predicate Concerns(c: Config, t: Table, call: Call, key: Key) {
    !call.key.class_.NoClass? && (call.key == key || CleanupDue(c, t, call.now))
  }

  /** The reading is not older than what the table notes for `key` and the call goes by: a cleanup by
      when the bucket was last seen, a count by its window, and without a bucket, both by the last
      cleanup. */
  predicate Timely(c: Config, t: Table, key: Key, now: int) {
    if key !in t.buckets then t.lastCleanup.Some? ==> t.lastCleanup.value <= now
    else if CleanupDue(c, t, now) then t.buckets[key].lastSeen <= now
    else t.buckets[key].windowStart <= now
  }

  predicate Disturbs(c: Config, t: Table, call: Call, key: Key) {
    Evicts(c, t, call, key) || (Concerns(c, t, call, key) && !Timely(c, t, key, call.now))
  }

  /** No call evicts the bucket of `key` or comes to it with a reading from the past. */
  predicate Undisturbed(c: Config, t: Table, calls: seq<Call>, key: Key)
    decreases |calls|
  {
    calls == [] || (!Disturbs(c, t, calls[0], key) && Undisturbed(c, calls[0].after, calls[1..], key))
  }

  /** A bucket that the table has dropped had a window that was over at the last cleanup. */
  ghost predicate DroppedLate(c: Config, key: Key, t: Table, latest: Option<Bucket>) {
    key !in t.buckets && latest.Some? ==>
      t.lastCleanup.Some? && latest.value.windowStart + c.window <= t.lastCleanup.value
  }

  lemma CallCleans(c: Config, t: Table, call: Call, key: Key)
    requires Called(c, t, call.key, call.now, call.answer, call.after) && !Evicts(c, t, call, key)
    ensures call.key.class_.NoClass? ==> call.after == t
    ensures !call.key.class_.NoClass? ==>
              && call.after.lastCleanup == Tidied(c, t, call.now).lastCleanup
              && (call.key != key ==> Find(call.after, key) == Found(c, t, key, call.now))
  {
    if !call.key.class_.NoClass? {
      var t' := Tidied(c, t, call.now);
      var v :| Prepared(c, t, call.key, call.now, v) &&
        var (b, a) := Decide(c, Find(v, call.key), call.key.class_, call.now);
        call.answer == a && call.after == v.(buckets := v.buckets[call.key := b]);
      if MustEvict(c, t', call.key) {
        var victim :| IsOldest(t', victim) && v == t'.(buckets := t'.buckets - {victim});
      }
    }
  }

  lemma UndisturbedCall(c: Config, key: Key, t: Table, latest: Option<Bucket>, call: Call)
    requires c.Valid() && c.bucketTtl >= c.window && !key.class_.NoClass?
    requires Follows(c, key, t, latest) && DroppedLate(c, key, t, latest)
    requires Called(c, t, call.key, call.now, call.answer, call.after) && !Disturbs(c, t, call, key)
    ensures !Early(c, t, latest, call, key) && DroppedLate(c, key, call.after, Latest(latest, call, key))
  {
    hide Called;
    CallCleans(c, t, call, key);
    if call.key == key { OwnCall(c, t, call); }
  }

  /** With a lifetime of idle buckets not below the window, an undisturbed key opens no window
      early. */
  lemma {:induction false} UndisturbedNeverEarly(
      c: Config, t: Table, latest: Option<Bucket>, calls: seq<Call>, key: Key)
    requires c.Valid() && c.bucketTtl >= c.window && !key.class_.NoClass?
    requires Trace(c, t, calls) && Undisturbed(c, t, calls, key)
    requires Follows(c, key, t, latest) && DroppedLate(c, key, t, latest)
    ensures NeverEarly(c, t, latest, calls, key)
    decreases |calls|
  {
    hide Called, Follows, DroppedLate, Early, Disturbs, Latest;
    if calls != [] {
      FollowsCall(c, key, t, latest, calls[0]);
      UndisturbedCall(c, key, t, latest, calls[0]);
      UndisturbedNeverEarly(c, calls[0].after, Latest(latest, calls[0], key), calls[1..], key);
    }
  }

  /** The readings never decrease, from `start` on. */
  predicate Ordered(calls: seq<Call>, start: int)
    decreases |calls|
  {
    calls == [] || (start <= calls[0].now && Ordered(calls[1..], calls[0].now))
  }

  predicate NeverEvicted(c: Config, t: Table, calls: seq<Call>, key: Key)
    decreases |calls|
  {
    calls == [] || (!Evicts(c, t, calls[0], key) && NeverEvicted(c, calls[0].after, calls[1..], key))
  }

  /** Everything that the table notes for `key` was read by `now`. */
  ghost predicate NotedBy(t: Table, key: Key, now: int) {
    && (key in t.buckets ==> t.buckets[key].windowStart <= now && t.buckets[key].lastSeen <= now)
    && (t.lastCleanup.Some? ==> t.lastCleanup.value <= now)
  }

  lemma NotedByCall(c: Config, t: Table, call: Call, key: Key, before: int)
    requires !key.class_.NoClass? && NotedBy(t, key, before) && before <= call.now
    requires Called(c, t, call.key, call.now, call.answer, call.after) && !Evicts(c, t, call, key)
    ensures !Disturbs(c, t, call, key) && NotedBy(call.after, key, call.now)
  {
    hide Called;
    CallCleans(c, t, call, key);
    if call.key == key { OwnCall(c, t, call); }
  }

  /** With readings that never decrease, a key that is not evicted is undisturbed. */
  lemma {:induction false} OrderedIsUndisturbed(c: Config, t: Table, calls: seq<Call>, key: Key, start: int)
    requires !key.class_.NoClass? && Trace(c, t, calls) && NotedBy(t, key, start)
    requires Ordered(calls, start) && NeverEvicted(c, t, calls, key)
    ensures Undisturbed(c, t, calls, key)
    decreases |calls|
  {
    hide Called, NotedBy, Disturbs, Evicts;
    if calls != [] {
      NotedByCall(c, t, calls[0], key, start);
      OrderedIsUndisturbed(c, calls[0].after, calls[1..], key, calls[0].now);
    }
  }

  /** The conditions of the bound and the promises, from the narrowest to the exact one. */
  lemma NeverEarlyFromEmpty(c: Config, calls: seq<Call>, key: Key, start: int)
    requires c.Valid() && c.bucketTtl >= c.window && !key.class_.NoClass? && Trace(c, EMPTY, calls)
    ensures Ordered(calls, start) && NeverEvicted(c, EMPTY, calls, key) ==> Undisturbed(c, EMPTY, calls, key)
    ensures Undisturbed(c, EMPTY, calls, key) ==> NeverEarly(c, EMPTY, None, calls, key)
    ensures NeverEarly(c, EMPTY, None, calls, key) <==> FarApart(Openings(c, EMPTY, calls, key), c.window)
  {
    if Ordered(calls, start) && NeverEvicted(c, EMPTY, calls, key) {
      OrderedIsUndisturbed(c, EMPTY, calls, key, start);
    }
    if Undisturbed(c, EMPTY, calls, key) {
      UndisturbedNeverEarly(c, EMPTY, None, calls, key);
    }
    WindowsApartIff(c, EMPTY, None, calls, key);
    assert StartOf(None) + Openings(c, EMPTY, calls, key) == Openings(c, EMPTY, calls, key);
  }

  // ---- Cleanups that open a full window early ----

  /** The table after `n` calls with `key`, all reading 0. */
  function BurstTable(key: Key, n: nat): Table {
    if n == 0 then EMPTY else Table(map[key := Bucket(0, 0, n)], Some(0))
  }

  function BurstBucket(n: nat): Option<Bucket> {
    if n == 0 then None else Some(Bucket(0, 0, n))
  }

  /** The rest of a burst that fills the window of `key`, then a call when the bucket has been idle
      for its lifetime. */
  function Burst(c: Config, key: Key, n: nat): seq<Call>
    requires n <= c.Limit(key.class_)
    decreases c.Limit(key.class_) - n
  {
    if n == c.Limit(key.class_)
    then [Call(key, c.bucketTtl, Allowed, Table(map[key := Bucket(c.bucketTtl, c.bucketTtl, 1)], Some(c.bucketTtl)))]
    else [Call(key, 0, Allowed, BurstTable(key, n + 1))] + Burst(c, key, n + 1)
  }

  /** With no key but `key` in the table, a call with it evicts nothing. */
  lemma CalledAlone(c: Config, t: Table, key: Key, now: int, answer: Answer, u: Table)
    requires c.Valid() && !key.class_.NoClass? && t.buckets.Keys <= {key}
    requires var t' := Tidied(c, t, now);
             var (b, a) := Decide(c, Find(t', key), key.class_, now);
             answer == a && u == t'.(buckets := t'.buckets[key := b])
    ensures Called(c, t, key, now, answer, u)
  {
    var t' := Tidied(c, t, now);
    if key !in t'.buckets {
      assert t'.buckets.Keys == {};
      assert |t'.buckets| == |t'.buckets.Keys| == 0;
    }
    assert Prepared(c, t, key, now, t');
  }

  lemma BurstCall(c: Config, key: Key, n: nat)
    requires c.Valid() && !key.class_.NoClass? && n < c.Limit(key.class_)
    ensures var t, call := BurstTable(key, n), Call(key, 0, Allowed, BurstTable(key, n + 1));
            && Called(c, t, key, 0, Allowed, call.after) && !Disturbs(c, t, call, key)
            && Decide(c, BurstBucket(n), key.class_, 0) == (BurstBucket(n + 1).value, Allowed)
  {
    var t, u := BurstTable(key, n), BurstTable(key, n + 1);
    var t' := Tidied(c, t, 0);
    assert t'.buckets == t.buckets && t'.lastCleanup == Some(0);
    assert u == t'.(buckets := t'.buckets[key := Bucket(0, 0, n + 1)]);
    CalledAlone(c, t, key, 0, Allowed, u);
  }

  lemma BurstLast(c: Config, key: Key)
    requires c.Valid() && !key.class_.NoClass? && c.bucketTtl < c.window
    ensures var n := c.Limit(key.class_);
            var t, call := BurstTable(key, n), Burst(c, key, n)[0];
            && Called(c, t, key, call.now, Allowed, call.after) && !Disturbs(c, t, call, key)
            && Decide(c, BurstBucket(n), key.class_, call.now).1.Refused?
  {
    var n := c.Limit(key.class_);
    var t, call := BurstTable(key, n), Burst(c, key, n)[0];
    assert Tidied(c, t, call.now) == Table(map[], Some(call.now));
    assert call.after == Tidied(c, t, call.now).(buckets := map[][key := Bucket(call.now, call.now, 1)]);
    CalledAlone(c, t, key, call.now, Allowed, call.after);
  }

  lemma {:induction false} BurstOpensEarly(c: Config, key: Key, n: nat)
    requires c.Valid() && !key.class_.NoClass? && c.bucketTtl < c.window && n <= c.Limit(key.class_)
    ensures Trace(c, BurstTable(key, n), Burst(c, key, n)) && Undisturbed(c, BurstTable(key, n), Burst(c, key, n), key)
    ensures Answers(Burst(c, key, n), key) != UncleanedAnswers(c, BurstBucket(n), Burst(c, key, n), key)
    decreases c.Limit(key.class_) - n
  {
    hide Called, Disturbs, Decide, BurstTable, BurstBucket;
    var calls := Burst(c, key, n);
    if n == c.Limit(key.class_) {
      BurstLast(c, key);
      assert Answers(calls, key)[0] == Allowed;
      assert UncleanedAnswers(c, BurstBucket(n), calls, key)[0].Refused?;
    } else {
      BurstCall(c, key, n);
      BurstGrows(n);
      BurstOpensEarly(c, key, n + 1);
      assert calls[1..] == Burst(c, key, n + 1);
      assert Answers(calls, key)[1..] == Answers(calls[1..], key);
      assert UncleanedAnswers(c, BurstBucket(n), calls, key)[1..]
             == UncleanedAnswers(c, BurstBucket(n + 1), calls[1..], key);
    }
  }

  lemma BurstGrows(n: nat)
    ensures BurstBucket(n + 1).Some?
  {
  }

  /** Exactly when the lifetime is shorter than the window is there a trace from the empty table in
      which cleaning up changes the answers of an undisturbed key. */
  lemma CleanupOpensEarlyIff(c: Config, key: Key)
    requires c.Valid() && !key.class_.NoClass?
    ensures (exists calls ::
               && Trace(c, EMPTY, calls) && Undisturbed(c, EMPTY, calls, key)
               && Answers(calls, key) != UncleanedAnswers(c, None, calls, key))
            <==> c.bucketTtl < c.window
  {
    if c.bucketTtl < c.window {
      BurstOpensEarly(c, key, 0);
      assert BurstTable(key, 0) == EMPTY && BurstBucket(0) == None;
    } else {
      forall calls | Trace(c, EMPTY, calls) && Undisturbed(c, EMPTY, calls, key)
        ensures Answers(calls, key) == UncleanedAnswers(c, None, calls, key)
      {
        UndisturbedNeverEarly(c, EMPTY, None, calls, key);
        CleanupIsInvisible(c, EMPTY, None, calls, key);
      }
    }
  }

  // ---- Readings from the past ----

  /** A window that is full and not over admits a call exactly if its reading is older than the
      window itself: the call opens a window of its own. */
  lemma FullWindowAdmitsIff(c: Config, b: Bucket, class_: Class, now: int)
    requires c.Valid() && b.count >= c.Limit(class_) && now < b.windowStart + c.window
    ensures Decide(c, Some(b), class_, now).1.Allowed? <==> now < b.windowStart
    ensures now < b.windowStart ==> Decide(c, Some(b), class_, now).0 == Bucket(now, now, 1)
  {
  }

  /** Calls with `key` and readings `n`, `n - 1`, ..., 1, each admitted into a window of its own. */
  function Backwards(c: Config, key: Key, n: nat, cleaned: int): seq<Call> {
    if n == 0 then []
    else
      var cleaned' := if c.maxBuckets == 1 then n else cleaned;
      [Call(key, n, Allowed, Table(map[key := Bucket(n, n, 1)], Some(cleaned')))] + Backwards(c, key, n - 1, cleaned')
  }

  lemma BackwardsCall(c: Config, key: Key, t: Table, n: nat, cleaned: int)
    requires c.Valid() && !key.class_.NoClass? && n > 0 && t.buckets == map[key := Bucket(n + 1, n + 1, 1)]
    requires t.lastCleanup == Some(cleaned) && cleaned > n
    ensures var call := Backwards(c, key, n, cleaned)[0];
            Called(c, t, key, n, Allowed, call.after)
  {
    var t' := Tidied(c, t, n);
    assert |t.buckets| == |t.buckets.Keys| == |{key}| == 1;
    assert CleanupDue(c, t, n) <==> c.maxBuckets == 1;
    var u := Backwards(c, key, n, cleaned)[0].after;
    assert u == t'.(buckets := t'.buckets[key := Bucket(n, n, 1)]);
    CalledAlone(c, t, key, n, Allowed, u);
  }

  lemma {:induction false} BackwardsTrace(c: Config, key: Key, t: Table, n: nat, cleaned: int)
    requires c.Valid() && !key.class_.NoClass? && t.buckets == map[key := Bucket(n + 1, n + 1, 1)]
    requires t.lastCleanup == Some(cleaned) && cleaned > n
    ensures Trace(c, t, Backwards(c, key, n, cleaned)) && |Backwards(c, key, n, cleaned)| == n
    ensures forall i :: 0 <= i < n ==>
              var call := Backwards(c, key, n, cleaned)[i];
              call.key == key && call.now == n - i && call.answer == Allowed
    decreases n
  {
    hide Called;
    if n > 0 {
      var calls := Backwards(c, key, n, cleaned);
      BackwardsCall(c, key, t, n, cleaned);
      var cleaned' := if c.maxBuckets == 1 then n else cleaned;
      BackwardsTrace(c, key, calls[0].after, n - 1, cleaned');
      assert calls[1..] == Backwards(c, key, n - 1, cleaned');
    }
  }

  lemma FirstCall(c: Config, key: Key, now: int)
    requires c.Valid() && !key.class_.NoClass?
    ensures Called(c, EMPTY, key, now, Allowed, Table(map[key := Bucket(now, now, 1)], Some(now)))
  {
    hide Called, Prepared;
    var t' := Tidied(c, EMPTY, now);
    assert t' == Table(map[], Some(now));
    assert t'.(buckets := t'.buckets[key := Bucket(now, now, 1)]) == Table(map[key := Bucket(now, now, 1)], Some(now));
    CalledAlone(c, EMPTY, key, now, Allowed, Table(map[key := Bucket(now, now, 1)], Some(now)));
  }

  /** So without such a condition there is no bound at all: whatever the limit and the window, `n`
      calls with the readings 1 to `n` are all admitted if they get the lock in reverse order. */
  lemma ReversedAllAdmitted(c: Config, key: Key, n: nat) returns (calls: seq<Call>)
    requires c.Valid() && !key.class_.NoClass?
    ensures Trace(c, EMPTY, calls) && |calls| == n
    ensures forall i :: 0 <= i < n ==> calls[i].key == key && calls[i].now == n - i && calls[i].answer == Allowed
  {
    if n == 0 {
      calls := [];
    } else {
      var u := Table(map[key := Bucket(n, n, 1)], Some(n));
      FirstCall(c, key, n);
      hide Called, Backwards;
      BackwardsTrace(c, key, u, n - 1, n);
      var first, rest := Call(key, n, Allowed, u), Backwards(c, key, n - 1, n);
      calls := [first] + rest;
      assert calls[1..] == rest;
      forall i | 0 <= i < n ensures calls[i].key == key && calls[i].now == n - i && calls[i].answer == Allowed {
        assert calls[i] == if i == 0 then first else rest[i-1];
      }
    }
  }

  // ---- Retrying ----

  /** Whatever the bucket and the reading, a refusal waits for no more than a window. */
  lemma RetryBounds(c: Config, found: Option<Bucket>, class_: Class, now: int)
    requires c.Valid()
    ensures var a := Decide(c, found, class_, now).1;
            a.Refused? ==> 0 < a.retry <= c.window
  {
  }

  /** The answers to the calls with `key` up to the first that is admitted are what the refusal
      announced: refused before `reopen`, admitted from then on. */
  ghost predicate AsAnnounced(calls: seq<Call>, key: Key, reopen: int)
    decreases |calls|
  {
    calls == [] ||
    if calls[0].key != key then AsAnnounced(calls[1..], key, reopen)
    else if calls[0].now < reopen then calls[0].answer.Refused? && AsAnnounced(calls[1..], key, reopen)
    else calls[0].answer.Allowed?
  }

  /** The first call that opens a window of `key` reads `reopen` or later. */
  predicate OpensOnTime(c: Config, t: Table, calls: seq<Call>, key: Key, reopen: int)
    decreases |calls|
  {
    calls == [] ||
    if OpensAt(c, t, calls[0], key) then calls[0].now >= reopen
    else OpensOnTime(c, calls[0].after, calls[1..], key, reopen)
  }

  /** A full window refuses until it is over and admits from then on, exactly if the next window of
      the key does not open before. */
  lemma {:induction false} RetryIsHonest(c: Config, t: Table, b: Bucket, calls: seq<Call>, key: Key)
    requires c.Valid() && !key.class_.NoClass? && Trace(c, t, calls)
    requires Follows(c, key, t, Some(b)) && b.count == c.Limit(key.class_)
    ensures AsAnnounced(calls, key, b.windowStart + c.window)
            <==> OpensOnTime(c, t, calls, key, b.windowStart + c.window)
    decreases |calls|
  {
    hide Called, Follows, OpensAt;
    if calls != [] {
      var call := calls[0];
      OpensOwn(c, t, call, key);
      FollowsCall(c, key, t, Some(b), call);
      if call.key == key { WindowOfCall(c, key, t, Some(b), call); }
      if !OpensAt(c, t, call, key) {
        RetryIsHonest(c, call.after, Latest(Some(b), call, key).value, calls[1..], key);
      }
    }
  }

  lemma {:induction false} NeverEarlyOnTime(c: Config, t: Table, b: Bucket, calls: seq<Call>, key: Key)
    requires c.Valid() && !key.class_.NoClass? && Trace(c, t, calls) && Follows(c, key, t, Some(b))
    requires NeverEarly(c, t, Some(b), calls, key)
    ensures OpensOnTime(c, t, calls, key, b.windowStart + c.window)
    decreases |calls|
  {
    hide Called, Follows, OpensAt;
    if calls != [] {
      var call := calls[0];
      OpensOwn(c, t, call, key);
      FollowsCall(c, key, t, Some(b), call);
      if call.key == key { WindowOfCall(c, key, t, Some(b), call); }
      if !OpensAt(c, t, call, key) {
        NeverEarlyOnTime(c, call.after, Latest(Some(b), call, key).value, calls[1..], key);
      }
    }
  }

  /** A refusal leaves a full window that is over when the refusal says. */
  lemma RefusalFills(c: Config, key: Key, t: Table, latest: Option<Bucket>, call: Call)
    requires c.Valid() && !key.class_.NoClass? && Follows(c, key, t, latest) && call.key == key
    requires Called(c, t, call.key, call.now, call.answer, call.after) && call.answer.Refused?
    ensures 0 < call.answer.retry <= c.window
    ensures var b := Find(call.after, key);
            && b.Some? && b.value.count == c.Limit(key.class_)
            && b.value.windowStart + c.window == call.now + call.answer.retry
  {
    hide Called, Found;
    OwnCall(c, t, call);
    FoundIsLatest(c, key, t, latest, call.now);
  }

  /** So in every trace from the empty table a refusal waits for no more than a window, and what it
      announces comes true exactly if the next window of the key does not open before; in
      particular while no window opens early. */
  lemma RetryKept(c: Config, calls: seq<Call>, key: Key, n: nat)
    requires c.Valid() && !key.class_.NoClass? && Trace(c, EMPTY, calls)
    requires n < |calls| && calls[n].key == key && calls[n].answer.Refused?
    ensures 0 < calls[n].answer.retry <= c.window
    ensures var reopen := calls[n].now + calls[n].answer.retry;
            && (AsAnnounced(calls[n+1..], key, reopen) <==> OpensOnTime(c, calls[n].after, calls[n+1..], key, reopen))
            && (NeverEarly(c, EMPTY, None, calls, key) ==> AsAnnounced(calls[n+1..], key, reopen))
  {
    hide Called, Follows, Early, OpensAt;
    var call := calls[n];
    var t, latest := Final(EMPTY, calls[..n]), LatestAfter(None, calls[..n], key);
    EmptyFollows(c, key);
    CutTrace(c, EMPTY, None, calls, key, n);
    assert calls[n..][0] == call && calls[n..][1..] == calls[n+1..];
    RefusalFills(c, key, t, latest, call);
    FollowsCall(c, key, t, latest, call);
    var b := Find(call.after, key).value;
    RetryIsHonest(c, call.after, b, calls[n+1..], key);
    if NeverEarly(c, EMPTY, None, calls, key) {
      NeverEarlyOnTime(c, call.after, b, calls[n+1..], key);
    }
  }

  lemma EmptyFollows(c: Config, key: Key)
    ensures Follows(c, key, EMPTY, None)
  {
  }
}

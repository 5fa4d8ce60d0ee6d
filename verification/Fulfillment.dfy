/** Fulfilment statistics (internal/services/fulfillment_stats.go): bounded ledgers of samples,
    completions and feedback, and the estimate drawn from the samples. */
module Fulfillment {
  import opened Basics
  import opened Tally
  import opened Sorting

  const MAX_SAMPLES: nat := 400
  const MAX_FEEDBACK: nat := 500
  const MAX_COMPLETIONS: nat := 5000
  const MAX_DURATION_SEC: int := 180 * 24 * 3600

  datatype Sample = Sample(mediaType: string, year: int, durationSec: int, completedAt: int)

  datatype Feedback = Feedback(requestId: string, title: string, answer: string, at: int)

  datatype Completion = Completion(requestId: string, title: string, completedAt: Option<int>)

  /** The newest `n` entries. */
  function Newest<T>(s: seq<T>, n: nat): seq<T> {
    if |s| > n then s[|s|-n..] else s
  }

  lemma NewestAppend<T>(s: seq<T>, x: T, n: nat)
    requires n > 0
    ensures Newest(Newest(s, n) + [x], n) == Newest(s + [x], n)
  {
  }

  /** They are the end of the sequence. */
  lemma NewestIsEnd<T>(s: seq<T>, n: nat)
    ensures var m := if |s| < n then |s| else n;
            |Newest(s, n)| == m && forall i :: 0 <= i < m ==> Newest(s, n)[i] == s[|s| - m + i]
  {
  }

  // ---- The ledgers as functions ----

  predicate ValidSample(s: Sample) {
    0 < s.durationSec <= MAX_DURATION_SEC && s.mediaType != ""
  }

  function SampleAdded(ledger: seq<Sample>, s: Sample): seq<Sample> {
    if ValidSample(s) then Newest(ledger + [s], MAX_SAMPLES) else ledger
  }

  predicate ValidCompletion(r: Completion) { r.requestId != "" && r.title != "" && r.completedAt.Some? }

  function CompletionAdded(ledger: seq<Completion>, r: Completion): seq<Completion> {
    if ValidCompletion(r) && r.requestId !in CompletionIds(ledger) then Newest(ledger + [r], MAX_COMPLETIONS)
    else ledger
  }

  function CompletionIds(ledger: seq<Completion>): set<string> {
    set i | 0 <= i < |ledger| :: ledger[i].requestId
  }

  function FeedbackIds(ledger: seq<Feedback>): set<string> {
    set i | 0 <= i < |ledger| :: ledger[i].requestId
  }

  function Reanswered(f: Feedback, title: string, answer: string, at: int): Feedback {
    Feedback(f.requestId, if title != "" then title else f.title, answer, at)
  }

  /** The first entry with the id is overwritten, otherwise a new one is appended. */
  function FeedbackAdded(ledger: seq<Feedback>, requestId: string, title: string, answer: string, at: int)
    : seq<Feedback>
  {
    if requestId == "" || answer == "" then ledger
    else if requestId in FeedbackIds(ledger) then Overwritten(ledger, requestId, title, answer, at)
    else Newest(ledger + [Feedback(requestId, title, answer, at)], MAX_FEEDBACK)
  }

  function Overwritten(ledger: seq<Feedback>, requestId: string, title: string, answer: string, at: int)
    : seq<Feedback>
  {
    if ledger == [] then []
    else if ledger[0].requestId == requestId then [Reanswered(ledger[0], title, answer, at)] + ledger[1..]
    else [ledger[0]] + Overwritten(ledger[1..], requestId, title, answer, at)
  }

  // ---- The code ----

  class FulfillmentStats {
    var samples: seq<Sample>
    var feedback: seq<Feedback>
    var completions: seq<Completion>

    constructor (samples: seq<Sample>, feedback: seq<Feedback>, completions: seq<Completion>)
      ensures this.samples == samples && this.feedback == feedback && this.completions == completions
    {
      this.samples, this.feedback, this.completions := samples, feedback, completions;
    }

    method AddSample(mediaType: string, year: int, durationSec: int, now: int)
      modifies this`samples
      ensures samples == SampleAdded(old(samples), Sample(mediaType, year, durationSec, now))
    {
      if durationSec <= 0 || durationSec > MAX_DURATION_SEC || mediaType == "" { return; }
      samples := samples + [Sample(mediaType, year, durationSec, now)];
      if |samples| > MAX_SAMPLES {
        samples := samples[|samples| - MAX_SAMPLES..];
      }
    }

    method AddCompletion(r: Completion)
      modifies this`completions
      ensures completions == CompletionAdded(old(completions), r)
    {
      if r.requestId == "" || r.title == "" || r.completedAt.None? { return; }
      for i := 0 to |completions|
        invariant forall j :: 0 <= j < i ==> completions[j].requestId != r.requestId
        invariant completions == old(completions)
      {
        if completions[i].requestId == r.requestId {
          assert r.requestId in CompletionIds(completions);
          return;
        }
      }
      completions := completions + [r];
      if |completions| > MAX_COMPLETIONS {
        completions := completions[|completions| - MAX_COMPLETIONS..];
      }
    }

    method AddWatchFeedbackTitled(requestId: string, title: string, answer: string, now: int)
      modifies this`feedback
      ensures feedback == FeedbackAdded(old(feedback), requestId, title, answer, now)
    {
      if requestId == "" || answer == "" { return; }
      for i := 0 to |feedback|
        invariant feedback == old(feedback)
        invariant forall j :: 0 <= j < i ==> feedback[j].requestId != requestId
      {
        if feedback[i].requestId == requestId {
          OverwrittenFirst(feedback, i, requestId, title, answer, now);
          var f := feedback[i].(answer := answer, at := now);
          if title != "" { f := f.(title := title); }
          feedback := feedback[i := f];
          return;
        }
      }
      feedback := feedback + [Feedback(requestId, title, answer, now)];
      if |feedback| > MAX_FEEDBACK {
        feedback := feedback[|feedback| - MAX_FEEDBACK..];
      }
    }

    method WatchFeedbackCounts() returns (counts: map<string, nat>)
      ensures counts.Keys == set i | 0 <= i < |feedback| :: feedback[i].answer
      ensures forall a :: a in counts ==> counts[a] == Sum(feedback, Answered(a))
    {
      counts := map[];
      for i := 0 to |feedback|
        invariant counts.Keys == set j | 0 <= j < i :: feedback[j].answer
        invariant forall a :: a in counts ==> counts[a] == Sum(feedback[..i], Answered(a))
      {
        var fb := feedback[i];
        assert feedback[..i+1] == feedback[..i] + [fb];
        forall a ensures Sum(feedback[..i+1], Answered(a)) == Sum(feedback[..i], Answered(a)) + Answered(a)(fb) {
          SumAppend(feedback[..i], Answered(a), fb);
        }
        if fb.answer !in counts { NoAnswer(feedback[..i], fb.answer); }
        counts := counts[fb.answer := (if fb.answer in counts then counts[fb.answer] else 0) + 1];
      }
      assert feedback[..|feedback|] == feedback;
    }

    /** The estimate in seconds and the number of samples that it rests on. */
    method Estimate(mediaType: string, year: int, thisYear: int) returns (r: Option<(int, nat)>)
      ensures var pick := Picked(samples, mediaType, year, thisYear);
              if |pick| < 3 then r == None
              else r.Some? && r.value.1 == |pick| && IsMedian(pick, r.value.0)
    {
      var pick := Durations(mediaType, year, thisYear);
      if |pick| < 3 { return None; }
      var sorted := SortBy(pick, Same);
      assert |sorted| == |multiset(sorted)| == |multiset(pick)| == |pick|;
      MiddleIsMedian(pick, sorted);
      return Some((sorted[|sorted| / 2], |sorted|));
    }

    /** The first part of `Estimate`: the durations to draw on. */
    method Durations(mediaType: string, year: int, thisYear: int) returns (pick: seq<int>)
      ensures pick == Picked(samples, mediaType, year, thisYear)
    {
      var recent := year >= thisYear - 1;
      var bucket, all := [], [];
      for i := 0 to |samples|
        invariant all == OfType(samples[..i], mediaType)
        invariant bucket == OfAge(samples[..i], mediaType, recent, thisYear)
      {
        var sm := samples[i];
        assert samples[..i+1][..i] == samples[..i];
        if sm.mediaType != mediaType { continue; }
        all := all + [sm.durationSec];
        if (sm.year >= thisYear - 1) == recent { bucket := bucket + [sm.durationSec]; }
      }
      assert samples[..|samples|] == samples;
      pick := bucket;
      if |pick| < 3 { pick := all; }
    }
  }

  function Same(x: int): int { x }

  function Answered(a: string): Feedback -> nat {
    (f: Feedback) => if f.answer == a then 1 else 0
  }

  lemma NoAnswer(fs: seq<Feedback>, a: string)
    requires a !in set j | 0 <= j < |fs| :: fs[j].answer
    ensures Sum(fs, Answered(a)) == 0
  {
    SumPositive(fs, Answered(a));
  }

  lemma {:induction false} OverwrittenFirst(
      ledger: seq<Feedback>, i: nat, requestId: string, title: string, answer: string, at: int)
    requires i < |ledger| && ledger[i].requestId == requestId
    requires forall j :: 0 <= j < i ==> ledger[j].requestId != requestId
    ensures requestId in FeedbackIds(ledger)
    ensures Overwritten(ledger, requestId, title, answer, at) == ledger[i := Reanswered(ledger[i], title, answer, at)]
  {
    if i > 0 {
      OverwrittenFirst(ledger[1..], i - 1, requestId, title, answer, at);
      assert ledger == [ledger[0]] + ledger[1..];
    }
  }

  // ---- The estimate ----

  function OfType(samples: seq<Sample>, mediaType: string): seq<int> {
    if samples == [] then []
    else OfType(samples[..|samples|-1], mediaType)
         + if samples[|samples|-1].mediaType == mediaType then [samples[|samples|-1].durationSec] else []
  }

  function OfAge(samples: seq<Sample>, mediaType: string, recent: bool, thisYear: int): seq<int> {
    if samples == [] then []
    else
      var s := samples[|samples|-1];
      OfAge(samples[..|samples|-1], mediaType, recent, thisYear)
      + if s.mediaType == mediaType && (s.year >= thisYear - 1) == recent then [s.durationSec] else []
  }

  /** The samples that the estimate rests on: those of the same age if there are three, otherwise
      all of the type. */
  function Picked(samples: seq<Sample>, mediaType: string, year: int, thisYear: int): seq<int> {
    var bucket := OfAge(samples, mediaType, year >= thisYear - 1, thisYear);
    if |bucket| >= 3 then bucket else OfType(samples, mediaType)
  }

  function Below(m: int): int -> nat { (x: int) => if x < m then 1 else 0 }

  function UpTo(m: int): int -> nat { (x: int) => if x <= m then 1 else 0 }

  /** The order statistic in the middle: at most half of the values are below it, and more than
      half are at most it. */
  predicate IsMedian(values: seq<int>, m: int) {
    m in values && Sum(values, Below(m)) <= |values| / 2 < Sum(values, UpTo(m))
  }

  lemma BelowMiddle(sorted: seq<int>, k: nat)
    requires Ordered(sorted, Same) && k < |sorted|
    ensures Sum(sorted, Below(sorted[k])) <= k
  {
    var m := sorted[k];
    SumSplit(sorted, Below(m), k);
    assert forall i :: k <= i < |sorted| ==> Same(m) <= Same(sorted[i]);
    SumOfZeros(sorted[k..], Below(m));
    SumAtMostLength(sorted[..k], Below(m));
  }

  lemma UpToMiddle(sorted: seq<int>, k: nat)
    requires Ordered(sorted, Same) && k < |sorted|
    ensures k < Sum(sorted, UpTo(sorted[k]))
  {
    var m := sorted[k];
    SumSplit(sorted, UpTo(m), k + 1);
    assert forall i :: 0 <= i <= k ==> Same(sorted[i]) <= Same(m);
    SumOfOnes(sorted[..k+1], UpTo(m));
  }

  lemma MiddleIsMedian(pick: seq<int>, sorted: seq<int>)
    requires Ordered(sorted, Same) && multiset(sorted) == multiset(pick) && |sorted| == |pick| > 0
    ensures IsMedian(pick, sorted[|sorted| / 2])
  {
    var k := |sorted| / 2;
    var m := sorted[k];
    assert m in multiset(pick);
    BelowMiddle(sorted, k);
    UpToMiddle(sorted, k);
    hide Ordered, Sum;
    SumPermutation(sorted, pick, Below(m));
    SumPermutation(sorted, pick, UpTo(m));
  }

  lemma {:induction false} SumOfZeros(s: seq<int>, f: int -> nat)
    requires forall i :: 0 <= i < |s| ==> f(s[i]) == 0
    ensures Sum(s, f) == 0
  {
    if s != [] { SumOfZeros(s[..|s|-1], f); }
  }

  lemma {:induction false} SumOfOnes(s: seq<int>, f: int -> nat)
    requires forall i :: 0 <= i < |s| ==> f(s[i]) == 1
    ensures Sum(s, f) == |s|
  {
    if s != [] { SumOfOnes(s[..|s|-1], f); }
  }

  lemma {:induction false} SumAtMostLength(s: seq<int>, f: int -> nat)
    requires forall x :: f(x) <= 1
    ensures Sum(s, f) <= |s|
  {
    if s != [] { SumAtMostLength(s[..|s|-1], f); }
  }

  /** There is one such value, so the estimate does not depend on the sorting. */
  lemma MedianIsUnique(values: seq<int>, m: int, n: int)
    requires IsMedian(values, m) && IsMedian(values, n)
    ensures m == n
  {
    if m < n { SumBounds(values, UpTo(m), Below(n)); }
    if n < m { SumBounds(values, UpTo(n), Below(m)); }
  }

  function OfTypeAt(mediaType: string): Sample -> nat {
    (x: Sample) => if x.mediaType == mediaType then 1 else 0
  }

  function SameAgeAt(mediaType: string, recent: bool, thisYear: int): Sample -> nat {
    (x: Sample) => if x.mediaType == mediaType && (x.year >= thisYear - 1) == recent then 1 else 0
  }

  /** One duration for each sample of the type, and for each of the type and age. */
  lemma {:induction false} DurationsOfSamples(samples: seq<Sample>, mediaType: string, recent: bool, thisYear: int)
    ensures |OfType(samples, mediaType)| == Sum(samples, OfTypeAt(mediaType))
    ensures |OfAge(samples, mediaType, recent, thisYear)| == Sum(samples, SameAgeAt(mediaType, recent, thisYear))
    ensures forall d :: d in OfType(samples, mediaType) <==>
                          exists x :: x in samples && x.mediaType == mediaType && x.durationSec == d
    ensures forall d :: d in OfAge(samples, mediaType, recent, thisYear) <==>
                          exists x :: x in samples && x.mediaType == mediaType
                                      && (x.year >= thisYear - 1) == recent && x.durationSec == d
  {
    if samples != [] {
      var n := |samples| - 1;
      DurationsOfSamples(samples[..n], mediaType, recent, thisYear);
      assert forall x :: x in samples <==> x in samples[..n] || x == samples[n];
    }
  }

  /** The estimate rests on the samples of the type and of the same age, new or old, if there are at
      least three of them, and otherwise on all of the type. */
  lemma PickedSamples(samples: seq<Sample>, mediaType: string, year: int, thisYear: int)
    ensures var recent := year >= thisYear - 1;
            Picked(samples, mediaType, year, thisYear)
            == if Sum(samples, SameAgeAt(mediaType, recent, thisYear)) >= 3
               then OfAge(samples, mediaType, recent, thisYear) else OfType(samples, mediaType)
  {
    DurationsOfSamples(samples, mediaType, year >= thisYear - 1, thisYear);
  }

  /** The middle is where it should be: at least half of the values are not above it, and at least
      half, rounded down, are not below. */
  lemma MedianBetween(values: seq<int>, m: int)
    requires IsMedian(values, m)
    ensures m in values
    ensures Sum(values, (x: int) => if x < m then 1 else 0) <= |values| / 2
    ensures Sum(values, (x: int) => if x <= m then 1 else 0) > |values| / 2
  {
    SumBounds(values, (x: int) => if x < m then 1 else 0, Below(m));
    SumBounds(values, UpTo(m), (x: int) => if x <= m then 1 else 0);
  }

  // ---- What an addition does ----

  /** A sample is taken up, as the newest, exactly if its duration is positive and at most 180 days and
      its type is given. */
  lemma SampleTaken(ledger: seq<Sample>, s: Sample)
    ensures var next := SampleAdded(ledger, s);
            if 0 < s.durationSec <= 180 * 24 * 3600 && s.mediaType != ""
            then next == Newest(ledger + [s], 400) && next[|next|-1] == s else next == ledger
  {
  }

  /** A completion is taken up, as the newest, exactly if its request is named and not there yet, its
      title named and its instant known. */
  lemma CompletionTaken(ledger: seq<Completion>, r: Completion)
    ensures var next := CompletionAdded(ledger, r);
            if r.requestId != "" && r.title != "" && r.completedAt != None
               && forall i :: 0 <= i < |ledger| ==> ledger[i].requestId != r.requestId
            then next == Newest(ledger + [r], 5000) && next[|next|-1] == r else next == ledger
  {
  }

  /** An answer that is named changes the entry of its request, the title only to one that is given,
      or becomes the newest entry; every other entry stays. */
  lemma AnswerTaken(ledger: seq<Feedback>, requestId: string, title: string, answer: string, at: int)
    requires UniqueIds(ledger)
    ensures var next := FeedbackAdded(ledger, requestId, title, answer, at);
            if requestId == "" || answer == "" then next == ledger
            else if exists i :: 0 <= i < |ledger| && ledger[i].requestId == requestId then
              && |next| == |ledger|
              && forall i :: 0 <= i < |ledger| ==>
                   next[i] == if ledger[i].requestId != requestId then ledger[i]
                              else Feedback(requestId, if title == "" then ledger[i].title else title, answer, at)
            else next == Newest(ledger + [Feedback(requestId, title, answer, at)], 500)
  {
    if requestId in FeedbackIds(ledger) { OverwrittenKeepsIds(ledger, requestId, title, answer, at); }
  }

  // ---- The ledgers over a history ----

  function SampleLedger(history: seq<Sample>): seq<Sample> {
    if history == [] then [] else SampleAdded(SampleLedger(history[..|history|-1]), history[|history|-1])
  }

  function Accepted(history: seq<Sample>): seq<Sample> {
    if history == [] then []
    else Accepted(history[..|history|-1]) + if ValidSample(history[|history|-1]) then [history[|history|-1]] else []
  }

  /** The sample ledger is always the newest 400 of the samples accepted so far. */
  lemma {:induction false} SamplesAreNewest(history: seq<Sample>)
    ensures SampleLedger(history) == Newest(Accepted(history), MAX_SAMPLES)
  {
    if history != [] {
      var n := |history| - 1;
      SamplesAreNewest(history[..n]);
      if ValidSample(history[n]) { NewestAppend(Accepted(history[..n]), history[n], MAX_SAMPLES); }
      else { assert Accepted(history) == Accepted(history[..n]); }
    }
  }

  datatype Answer = Answer(requestId: string, title: string, answer: string, at: int)

  function FeedbackLedger(history: seq<Answer>): seq<Feedback> {
    if history == [] then []
    else
      var a := history[|history|-1];
      FeedbackAdded(FeedbackLedger(history[..|history|-1]), a.requestId, a.title, a.answer, a.at)
  }

  predicate UniqueIds(ledger: seq<Feedback>) {
    forall i, j :: 0 <= i < j < |ledger| ==> ledger[i].requestId != ledger[j].requestId
  }

  lemma {:induction false} OverwrittenFacts(
      ledger: seq<Feedback>, requestId: string, title: string, answer: string, at: int)
    ensures var r := Overwritten(ledger, requestId, title, answer, at);
            && |r| == |ledger|
            && (forall i :: 0 <= i < |r| ==>
                  || r[i] == ledger[i]
                  || (ledger[i].requestId == requestId && r[i] == Reanswered(ledger[i], title, answer, at)))
            && (requestId in FeedbackIds(ledger) ==> exists i :: 0 <= i < |r| && ledger[i].requestId == requestId
                                                                  && r[i] == Reanswered(ledger[i], title, answer, at))
  {
    if ledger != [] && ledger[0].requestId != requestId {
      OverwrittenFacts(ledger[1..], requestId, title, answer, at);
      var rest := Overwritten(ledger[1..], requestId, title, answer, at);
      var r := Overwritten(ledger, requestId, title, answer, at);
      if requestId in FeedbackIds(ledger) {
        var k :| 0 <= k < |ledger| && ledger[k].requestId == requestId;
        assert ledger[1..][k-1].requestId in FeedbackIds(ledger[1..]);
        var i :| 0 <= i < |rest| && ledger[1..][i].requestId == requestId
                 && rest[i] == Reanswered(ledger[1..][i], title, answer, at);
        assert r[i+1] == rest[i];
      }
    }
  }

  /** With unique ids the overwritten entry is the one with the id. */
  lemma OverwrittenKeepsIds(ledger: seq<Feedback>, requestId: string, title: string, answer: string, at: int)
    requires UniqueIds(ledger) && requestId in FeedbackIds(ledger)
    ensures var r := Overwritten(ledger, requestId, title, answer, at);
            && UniqueIds(r) && |r| == |ledger|
            && forall i :: 0 <= i < |r| ==>
                 r[i] == if ledger[i].requestId == requestId then Reanswered(ledger[i], title, answer, at)
                         else ledger[i]
  {
    OverwrittenFacts(ledger, requestId, title, answer, at);
  }

  lemma AppendUnique(ledger: seq<Feedback>, f: Feedback, n: nat)
    requires UniqueIds(ledger) && f.requestId !in FeedbackIds(ledger)
    ensures UniqueIds(Newest(ledger + [f], n))
  {
    var all := ledger + [f];
    forall i, j | 0 <= i < j < |all| ensures all[i].requestId != all[j].requestId {
      if j == |ledger| { assert ledger[i].requestId in FeedbackIds(ledger); }
    }
  }

  /** What the last valid answer of a request was, if any. */
  function LastAnswer(history: seq<Answer>, requestId: string): Option<string> {
    if history == [] then None
    else
      var a := history[|history|-1];
      if a.requestId == requestId && a.requestId != "" && a.answer != "" then Some(a.answer)
      else LastAnswer(history[..|history|-1], requestId)
  }

  /** The feedback ledger never has a request twice, and has for each request its latest answer. */
  lemma {:induction false} FeedbackIsLatest(history: seq<Answer>)
    ensures var ledger := FeedbackLedger(history);
            && UniqueIds(ledger) && |ledger| <= MAX_FEEDBACK
            && forall i :: 0 <= i < |ledger| ==> LastAnswer(history, ledger[i].requestId) == Some(ledger[i].answer)
  {
    if history != [] {
      var n := |history| - 1;
      var before, a := FeedbackLedger(history[..n]), history[n];
      FeedbackIsLatest(history[..n]);
      if a.requestId == "" || a.answer == "" {
      } else if a.requestId in FeedbackIds(before) {
        OverwrittenKeepsIds(before, a.requestId, a.title, a.answer, a.at);
      } else {
        AppendUnique(before, Feedback(a.requestId, a.title, a.answer, a.at), MAX_FEEDBACK);
        forall i | 0 <= i < |before| ensures before[i].requestId != a.requestId {
          assert before[i].requestId in FeedbackIds(before);
        }
      }
    }
  }

  /** At most 5000 completions, and no request twice. */
  predicate CompletionsInv(ledger: seq<Completion>) {
    && |ledger| <= MAX_COMPLETIONS
    && forall i, j :: 0 <= i < j < |ledger| ==> ledger[i].requestId != ledger[j].requestId
  }

  lemma CompletionsStep(ledger: seq<Completion>, r: Completion)
    requires CompletionsInv(ledger)
    ensures CompletionsInv(CompletionAdded(ledger, r))
  {
    var all := ledger + [r];
    if r.requestId !in CompletionIds(ledger) {
      forall i, j | 0 <= i < j < |all| ensures all[i].requestId != all[j].requestId {
        if j == |ledger| { assert ledger[i].requestId in CompletionIds(ledger); }
      }
    }
  }

  /** The ledger after adding a history of completions. */
  function CompletionsAfter(ledger: seq<Completion>, history: seq<Completion>): seq<Completion>
    decreases |history|
  {
    if history == [] then ledger else CompletionsAfter(CompletionAdded(ledger, history[0]), history[1..])
  }

  /** How many of the history were added. */
  function NewerThan(ledger: seq<Completion>, history: seq<Completion>): nat
    decreases |history|
  {
    if history == [] then 0
    else
      var r := history[0];
      (if ValidCompletion(r) && r.requestId !in CompletionIds(ledger) then 1 else 0)
      + NewerThan(CompletionAdded(ledger, r), history[1..])
  }

  /** Over any history no request is in the ledger twice. */
  lemma {:induction false} CompletionsUnique(ledger: seq<Completion>, history: seq<Completion>)
    requires CompletionsInv(ledger)
    ensures CompletionsInv(CompletionsAfter(ledger, history))
    decreases |history|
  {
    hide CompletionsInv;
    if history != [] {
      CompletionsStep(ledger, history[0]);
      CompletionsUnique(CompletionAdded(ledger, history[0]), history[1..]);
    }
  }

  /** The completion of `id` has `newer` ones after it, or has been evicted by them. */
  predicate Behind(ledger: seq<Completion>, id: string, newer: nat) {
    if newer < MAX_COMPLETIONS then newer < |ledger| && ledger[|ledger| - 1 - newer].requestId == id
    else id !in CompletionIds(ledger)
  }

  lemma BehindStep(ledger: seq<Completion>, id: string, newer: nat, r: Completion)
    requires CompletionsInv(ledger) && Behind(ledger, id, newer)
    requires ValidCompletion(r) && r.requestId !in CompletionIds(ledger) && r.requestId != id
    ensures Behind(CompletionAdded(ledger, r), id, newer + 1)
  {
    var all, next := ledger + [r], CompletionAdded(ledger, r);
    if newer + 1 == MAX_COMPLETIONS {
      assert ledger[0].requestId == id && |ledger| == MAX_COMPLETIONS && next == all[1..];
      forall i | 0 <= i < |next| ensures next[i].requestId != id {
        assert next[i] == if i + 1 < |ledger| then ledger[i+1] else r;
      }
    } else if newer >= MAX_COMPLETIONS {
      forall i | 0 <= i < |next| ensures next[i].requestId != id {
        var j := i + |all| - |next|;
        assert next[i] == all[j];
        if j < |ledger| { assert ledger[j].requestId in CompletionIds(ledger); }
      }
    }
  }

  lemma BehindIn(ledger: seq<Completion>, id: string, newer: nat)
    requires Behind(ledger, id, newer)
    ensures id in CompletionIds(ledger) <==> newer < MAX_COMPLETIONS
  {
  }

  lemma {:induction false} BehindHistory(ledger: seq<Completion>, id: string, newer: nat, history: seq<Completion>)
    requires CompletionsInv(ledger) && Behind(ledger, id, newer)
    ensures var n := newer + NewerThan(ledger, history);
            && (n < MAX_COMPLETIONS ==> id in CompletionIds(CompletionsAfter(ledger, history)))
            && ((forall r :: r in history ==> r.requestId != id) ==>
                  (id in CompletionIds(CompletionsAfter(ledger, history)) <==> n < MAX_COMPLETIONS))
    decreases |history|
  {
    hide CompletionsInv, Behind, CompletionIds;
    BehindIn(ledger, id, newer);
    if history != [] {
      var r := history[0];
      CompletionsStep(ledger, r);
      var next := CompletionAdded(ledger, r);
      assert forall x :: x in history[1..] ==> x in history;
      if next == ledger && (!ValidCompletion(r) || r.requestId in CompletionIds(ledger)) {
        BehindHistory(ledger, id, newer, history[1..]);
      } else if r.requestId != id {
        BehindStep(ledger, id, newer, r);
        BehindHistory(next, id, newer + 1, history[1..]);
      }
    }
  }

  /** A completion that was added makes every repeat change nothing until 5000 newer ones have been
      added, and, if it was not repeated meanwhile, exactly until then. */
  lemma RepeatUntilEvicted(ledger: seq<Completion>, r: Completion, history: seq<Completion>)
    requires CompletionsInv(ledger) && ValidCompletion(r) && r.requestId !in CompletionIds(ledger)
    ensures var first := CompletionAdded(ledger, r);
            var now := CompletionsAfter(first, history);
            && (NewerThan(first, history) < MAX_COMPLETIONS ==> CompletionAdded(now, r) == now)
            && ((forall x :: x in history ==> x.requestId != r.requestId) ==>
                  (CompletionAdded(now, r) == now <==> NewerThan(first, history) < MAX_COMPLETIONS))
  {
    hide CompletionsInv, NewerThan;
    var first := CompletionAdded(ledger, r);
    CompletionsStep(ledger, r);
    assert first[|first|-1] == r;
    BehindHistory(first, r.requestId, 0, history);
    var now := CompletionsAfter(first, history);
    AddedOrNot(now, r);
  }

  lemma AddedOrNot(ledger: seq<Completion>, r: Completion)
    requires ValidCompletion(r)
    ensures CompletionAdded(ledger, r) == ledger <==> r.requestId in CompletionIds(ledger)
  {
    if r.requestId !in CompletionIds(ledger) {
      var next := CompletionAdded(ledger, r);
      assert next[|next|-1] == r && r.requestId in CompletionIds(next);
    }
  }

  // ---- Counts ----

  /** The number of entries with an answer among `answers`. */
  function AnsweredIn(answers: set<string>): Feedback -> nat {
    (f: Feedback) => if f.answer in answers then 1 else 0
  }

  lemma {:induction false} CountsAdd(fs: seq<Feedback>, answers: set<string>, a: string)
    requires a !in answers
    ensures Sum(fs, AnsweredIn(answers + {a})) == Sum(fs, AnsweredIn(answers)) + Sum(fs, Answered(a))
  {
    if fs != [] { CountsAdd(fs[..|fs|-1], answers, a); }
  }

  lemma {:induction false} CountsAll(fs: seq<Feedback>, answers: set<string>)
    requires forall i :: 0 <= i < |fs| ==> fs[i].answer in answers
    ensures Sum(fs, AnsweredIn(answers)) == |fs|
  {
    if fs != [] { CountsAll(fs[..|fs|-1], answers); }
  }

  /** The sum of the counts over a listing of the answers. */
  function CountSum(fs: seq<Feedback>, answers: seq<string>): nat {
    if answers == [] then 0 else CountSum(fs, answers[..|answers|-1]) + Sum(fs, Answered(answers[|answers|-1]))
  }

  lemma {:induction false} CountSumIsIn(fs: seq<Feedback>, answers: seq<string>)
    requires forall i, j :: 0 <= i < j < |answers| ==> answers[i] != answers[j]
    ensures CountSum(fs, answers) == Sum(fs, AnsweredIn(set a | a in answers))
  {
    if answers == [] {
      SumPositive(fs, AnsweredIn((set a | a in answers)));
    } else {
      var n := |answers| - 1;
      CountSumIsIn(fs, answers[..n]);
      CountsAdd(fs, (set a | a in answers[..n]), answers[n]);
      assert (set a | a in answers) == (set a | a in answers[..n]) + {answers[n]};
    }
  }

  /** The counts of all answers that occur add up to the length of the ledger. */
  lemma CountsSumToLength(fs: seq<Feedback>, answers: seq<string>)
    requires forall i, j :: 0 <= i < j < |answers| ==> answers[i] != answers[j]
    requires (set a | a in answers) == set i | 0 <= i < |fs| :: fs[i].answer
    ensures CountSum(fs, answers) == |fs|
  {
    CountSumIsIn(fs, answers);
    CountsAll(fs, (set a | a in answers));
  }
}

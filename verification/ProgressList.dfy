/** The progress list (internal/handlers/menu.go): local work orders merged with the items of
    MoviePilot, shown page by page and grouped by state. */
module ProgressList {
  import opened Basics
  import opened Text

  datatype Business = Request | Wash

  /** `subscriptionId` 0: not submitted to MoviePilot. */
  datatype Review = Review(
    business: Business, tmdbId: int, season: int, subscriptionId: int, status: string, title: string, isTv: bool)

  datatype Issue = Issue(id: int, title: string, status: string)

  datatype Item = Item(name: string, kind: string, state: string, season: int, tmdbId: int)

  const REVIEWING := "REVIEWING"
  const STUCK := "STUCK"
  const WORK_ORDER := "WORK_ORDER"
  const ISSUE_OPEN := "ISSUE_OPEN"
  const COMPLETED := "C"
  const FAILED := "F"
  const CANCELLED := "X"

  function NameOf(b: Business): string { if b.Wash? then "wash" else "request" }

  function Key(b: Business, tmdbId: int, season: int): string {
    NameOf(b) + ":" + Itoa(tmdbId) + ":" + Itoa(season)
  }

  function KeyOf(r: Review): string { Key(r.business, r.tmdbId, r.season) }

  predicate Linked(r: Review) { r.business.Request? && r.subscriptionId != 0 }

  predicate Dropped(r: Review) { r.business.Request? && (r.status == "rejected" || r.status == "cancelled") }

  /** The review needs a line of its own, unless its key has one. */
  predicate Eligible(r: Review) { !Linked(r) && !Dropped(r) }

  function StateOf(r: Review): string {
    if r.status == "approved" then (if r.business.Wash? then WORK_ORDER else STUCK)
    else if r.status == "rejected" || r.status == "cancelled" then CANCELLED
    else if r.status == "failed" && r.business.Request? then FAILED
    else if r.status == "completed" then COMPLETED
    else REVIEWING
  }

  function ItemOf(r: Review): Item {
    Item((if r.business.Wash? then "[洗版] " else "") + r.title, if r.isTv then "电视剧" else "电影",
         StateOf(r), r.season, r.tmdbId)
  }

  function IssueItem(i: Issue): Item {
    Item("[问题 #" + Itoa(i.id) + "] " + i.title, "问题",
         if i.status == "fixed" || i.status == "closed" then COMPLETED
         else if i.status == "processing" || i.status == "reply" then WORK_ORDER
         else ISSUE_OPEN, 0, 0)
  }

  /** The reviews that get a line: in their order, each eligible one whose key is new. */
  function Chosen(existing: set<string>, reviews: seq<Review>): seq<Review>
    decreases |reviews|
  {
    if reviews == [] then []
    else
      var r := reviews[0];
      if KeyOf(r) !in existing && Eligible(r) then [r] + Chosen(existing + {KeyOf(r)}, reviews[1..])
      else Chosen(existing, reviews[1..])
  }

  function MoviePilotKeys(items: seq<Item>): set<string> {
    set i | 0 <= i < |items| :: Key(Request, items[i].tmdbId, items[i].season)
  }

  function Map<A, B>(f: A -> B, s: seq<A>): (r: seq<B>)
    ensures |r| == |s|
  {
    seq(|s|, i requires 0 <= i < |s| => f(s[i]))
  }

  /** An item whose title is confirmed to be in the library is shown as completed. */
  function Confirmed(inLibrary: Item -> bool): Item -> Item {
    (it: Item) => if inLibrary(it) then it.(state := COMPLETED) else it
  }

  /** The local lines; a service that is not there is None. */
  function Local(items: seq<Item>, reviews: Option<seq<Review>>, issues: Option<seq<Issue>>): seq<Item> {
    (if reviews.Some? then Map(ItemOf, Chosen(MoviePilotKeys(items), reviews.value)) else [])
    + if issues.Some? then Map(IssueItem, issues.value) else []
  }

  /** mergePendingReviews. */
  function Merged(
      items: seq<Item>, reviews: Option<seq<Review>>, issues: Option<seq<Issue>>, inLibrary: Item -> bool): seq<Item>
  {
    Local(items, reviews, issues) + if reviews.Some? then Map(Confirmed(inLibrary), items) else items
  }

  // ---- The code ----

  /** Marks the library's titles in place. */
  method MarkConfirmed(items: array<Item>, inLibrary: Item -> bool)
    modifies items
    ensures items[..] == Map(Confirmed(inLibrary), old(items[..]))
  {
    for i := 0 to items.Length
      invariant forall j :: 0 <= j < i ==> items[j] == Confirmed(inLibrary)(old(items[j]))
      invariant forall j :: i <= j < items.Length ==> items[j] == old(items[j])
    {
      if inLibrary(items[i]) { items[i] := items[i].(state := COMPLETED); }
    }
  }

  method ExistingKeys(items: array<Item>) returns (existing: set<string>)
    ensures existing == MoviePilotKeys(items[..])
  {
    existing := {};
    for i := 0 to items.Length
      invariant existing == set j | 0 <= j < i :: Key(Request, items[j].tmdbId, items[j].season)
    {
      existing := existing + {Key(Request, items[i].tmdbId, items[i].season)};
    }
  }

  lemma MapAppend<A, B>(f: A -> B, s: seq<A>, x: A)
    ensures Map(f, s + [x]) == Map(f, s) + [f(x)]
  {
  }

  lemma MapNothing()
    ensures Map(ItemOf, []) == []
  {
  }

  /** The line of one review that is not linked, if it gets one. */
  method LineFor(rv: Review) returns (line: Option<Item>)
    requires !Linked(rv)
    ensures line == if Eligible(rv) then Some(ItemOf(rv)) else None
  {
    var state := REVIEWING;
    if rv.status == "approved" {
      state := if rv.business.Wash? then WORK_ORDER else STUCK;
    } else if rv.status == "rejected" || rv.status == "cancelled" {
      if rv.business.Request? { return None; }
      state := CANCELLED;
    } else if rv.status == "failed" {
      if rv.business.Request? { state := FAILED; }
    } else if rv.status == "completed" {
      state := COMPLETED;
    }
    var kind := if rv.isTv then "电视剧" else "电影";
    var prefix := if rv.business.Wash? then "[洗版] " else "";
    return Some(Item(prefix + rv.title, kind, state, rv.season, rv.tmdbId));
  }

  method AddReviews(existing0: set<string>, reviews: seq<Review>) returns (extra: seq<Item>)
    ensures extra == Map(ItemOf, Chosen(existing0, reviews))
  {
    hide KeyOf, ItemOf, Dropped, Map;
    MapNothing();
    extra := [];
    var existing := existing0;
    ghost var chosen := [];
    for i := 0 to |reviews|
      invariant Chosen(existing0, reviews) == chosen + Chosen(existing, reviews[i..])
      invariant extra == Map(ItemOf, chosen)
    {
      var rv := reviews[i];
      assert reviews[i..][1..] == reviews[i+1..];
      var key := KeyOf(rv);
      if key in existing || (rv.business.Request? && rv.subscriptionId != 0) { continue; }
      var line := LineFor(rv);
      if line.None? { continue; }
      MapAppend(ItemOf, chosen, rv);
      chosen := chosen + [rv];
      extra := extra + [line.value];
      existing := existing + {key};
    }
    assert Chosen(existing0, reviews) == chosen;
  }

  lemma SameKeys(items: seq<Item>, before: seq<Item>, inLibrary: Item -> bool, marked: bool)
    requires items == if marked then Map(Confirmed(inLibrary), before) else before
    ensures MoviePilotKeys(items) == MoviePilotKeys(before)
  {
    assert |items| == |before|;
    assert forall i :: 0 <= i < |items| ==> items[i].tmdbId == before[i].tmdbId && items[i].season == before[i].season;
  }

  method MergePendingReviews(
      items: array<Item>, reviews: Option<seq<Review>>, issues: Option<seq<Issue>>, inLibrary: Item -> bool)
    returns (all: seq<Item>)
    modifies items
    ensures all == Merged(old(items[..]), reviews, issues, inLibrary)
  {
    if reviews.None? && issues.None? { return items[..]; }
    if reviews.Some? { MarkConfirmed(items, inLibrary); }
    var existing := ExistingKeys(items);
    SameKeys(items[..], old(items[..]), inLibrary, reviews.Some?);
    var extra := [];
    if reviews.Some? { extra := AddReviews(existing, reviews.value); }
    if issues.Some? { extra := extra + Map(IssueItem, issues.value); }
    return extra + items[..];
  }

  // ---- What the list shows ----

  lemma KeyInjective(b: Business, t: int, s: int, c: Business, u: int, v: int)
    requires InInt64(t) && InInt64(s) && InInt64(u) && InInt64(v)
    ensures Key(b, t, s) == Key(c, u, v) <==> b == c && t == u && s == v
  {
    hide Split, Itoa, Atoi;
    KeyParts(b, t, s);
    KeyParts(c, u, v);
    AtoiOfItoa(t); AtoiOfItoa(s); AtoiOfItoa(u); AtoiOfItoa(v);
  }

  lemma KeyParts(b: Business, t: int, s: int)
    requires InInt64(t) && InInt64(s)
    ensures Split(Key(b, t, s), ':') == [NameOf(b), Itoa(t), Itoa(s)]
  {
    hide Split, Itoa;
    AtoiOfItoa(t); AtoiOfItoa(s);
    SplitFree(Itoa(s), ':');
    SplitFirst(Itoa(t), ':', Itoa(s));
    SplitFirst(NameOf(b), ':', Itoa(t) + ":" + Itoa(s));
    assert Key(b, t, s) == NameOf(b) + [':'] + (Itoa(t) + [':'] + Itoa(s));
  }

  /** No review gets a line but an eligible one whose key MoviePilot does not have. */
  lemma {:induction false} ChosenEligible(existing: set<string>, reviews: seq<Review>)
    ensures forall r :: r in Chosen(existing, reviews) ==> r in reviews && Eligible(r) && KeyOf(r) !in existing
    decreases |reviews|
  {
    hide KeyOf, Eligible;
    if reviews != [] {
      var r := reviews[0];
      var more := KeyOf(r) !in existing && Eligible(r);
      ChosenEligible(if more then existing + {KeyOf(r)} else existing, reviews[1..]);
    }
  }

  predicate UniqueKeys(rs: seq<Review>) {
    forall i, j :: 0 <= i < j < |rs| ==> KeyOf(rs[i]) != KeyOf(rs[j])
  }

  lemma UniqueMore(r: Review, rest: seq<Review>)
    requires UniqueKeys(rest) && forall q :: q in rest ==> KeyOf(q) != KeyOf(r)
    ensures UniqueKeys([r] + rest)
  {
    hide KeyOf;
    forall i, j | 0 <= i < j < |rest| + 1 ensures KeyOf(([r] + rest)[i]) != KeyOf(([r] + rest)[j]) {
      assert rest[j-1] in rest && ([r] + rest)[j] == rest[j-1];
      assert i > 0 ==> ([r] + rest)[i] == rest[i-1];
    }
  }

  /** No two local lines have the same key. */
  lemma {:induction false} ChosenUnique(existing: set<string>, reviews: seq<Review>)
    ensures UniqueKeys(Chosen(existing, reviews))
    decreases |reviews|
  {
    hide KeyOf, Eligible, UniqueKeys;
    if reviews == [] {
      NoneUnique();
    } else {
      var r := reviews[0];
      var more := KeyOf(r) !in existing && Eligible(r);
      var existing' := if more then existing + {KeyOf(r)} else existing;
      ChosenUnique(existing', reviews[1..]);
      if more {
        ChosenEligible(existing', reviews[1..]);
        UniqueMore(r, Chosen(existing', reviews[1..]));
      }
    }
  }

  lemma NoneUnique()
    ensures UniqueKeys([])
  {
  }

  /** Every eligible review is represented: MoviePilot or a local line has its key. */
  lemma {:induction false} ChosenComplete(existing: set<string>, reviews: seq<Review>, q: Review)
    requires q in reviews && Eligible(q)
    ensures KeyOf(q) in existing || exists r :: r in Chosen(existing, reviews) && KeyOf(r) == KeyOf(q)
    decreases |reviews|
  {
    hide KeyOf, Eligible;
    var r := reviews[0];
    if KeyOf(r) !in existing && Eligible(r) {
      assert Chosen(existing, reviews)[0] == r;
      if KeyOf(q) != KeyOf(r) { ChosenComplete(existing + {KeyOf(r)}, reviews[1..], q); }
    } else if KeyOf(q) !in existing {
      ChosenComplete(existing, reviews[1..], q);
    }
  }

  lemma MergedParts(
      items: seq<Item>, reviews: Option<seq<Review>>, issues: Option<seq<Issue>>, inLibrary: Item -> bool)
    ensures Merged(items, reviews, issues, inLibrary)
            == Local(items, reviews, issues) + if reviews.Some? then Map(Confirmed(inLibrary), items) else items
  {
  }

  lemma ConfirmedState(items: seq<Item>, inLibrary: Item -> bool, i: nat)
    requires i < |items|
    ensures Map(Confirmed(inLibrary), items)[i]
            == if inLibrary(items[i]) then items[i].(state := "C") else items[i]
  {
  }

  lemma Suffix<T>(a: seq<T>, b: seq<T>, i: nat)
    requires i < |b|
    ensures (a + b)[|a + b| - |b| + i] == b[i]
  {
  }

  /** MoviePilot's items are the last of the list, in their order; with a review service exactly those
      that the library confirms are shown as completed, and nothing else of any is changed. */
  lemma MoviePilotIsSuffix(
      items: seq<Item>, reviews: Option<seq<Review>>, issues: Option<seq<Issue>>, inLibrary: Item -> bool)
    ensures var all := Merged(items, reviews, issues, inLibrary);
            && |items| <= |all|
            && forall i :: 0 <= i < |items| ==>
                 all[|all| - |items| + i]
                 == if reviews.Some? && inLibrary(items[i]) then items[i].(state := "C") else items[i]
  {
    MergedParts(items, reviews, issues, inLibrary);
    hide *;
    var local := Local(items, reviews, issues);
    var confirmed := if reviews.Some? then Map(Confirmed(inLibrary), items) else items;
    forall i: nat | i < |items|
      ensures (local + confirmed)[|local + confirmed| - |items| + i]
              == if reviews.Some? && inLibrary(items[i]) then items[i].(state := "C") else items[i]
    {
      Suffix(local, confirmed, i);
      if reviews.Some? { ConfirmedState(items, inLibrary, i); }
    }
  }

  /** Before them come the lines of the chosen reviews and then one line for each issue. */
  lemma LocalLinesFirst(
      items: seq<Item>, reviews: seq<Review>, issues: seq<Issue>, inLibrary: Item -> bool)
    ensures var all := Merged(items, Some(reviews), Some(issues), inLibrary);
            var chosen := Chosen(MoviePilotKeys(items), reviews);
            && |all| == |chosen| + |issues| + |items|
            && (forall i :: 0 <= i < |chosen| ==> all[i] == ItemOf(chosen[i]))
            && (forall i :: 0 <= i < |issues| ==> all[|chosen| + i] == IssueItem(issues[i]))
  {
    hide Chosen, ItemOf, IssueItem, Confirmed, MoviePilotKeys;
    MergedParts(items, Some(reviews), Some(issues), inLibrary);
    assert Local(items, Some(reviews), Some(issues))
           == Map(ItemOf, Chosen(MoviePilotKeys(items), reviews)) + Map(IssueItem, issues);
    hide Local, Merged;
  }

  /** A line shows the review: its title, after a mark for a wash, its kind, season and id. */
  lemma LineShowsReview(r: Review)
    ensures var line := ItemOf(r);
            && line.tmdbId == r.tmdbId && line.season == r.season
            && line.kind == (if r.isTv then "电视剧" else "电影")
            && line.name == (if r.business.Wash? then "[洗版] " + r.title else r.title)
  {
  }

  /** The state of a line: approved work orders and requests are told apart, and what has no state of
      its own is under review. */
  lemma LineState(r: Review)
    ensures var state := ItemOf(r).state;
            && (state == "WORK_ORDER" <==> r.business.Wash? && r.status == "approved")
            && (state == "STUCK" <==> r.business.Request? && r.status == "approved")
            && (state == "X" <==> r.status == "rejected" || r.status == "cancelled")
            && (state == "F" <==> r.business.Request? && r.status == "failed")
            && (state == "C" <==> r.status == "completed")
            && (state in {"WORK_ORDER", "STUCK", "X", "F", "C", "REVIEWING"})
  {
  }

  /** MoviePilot has the key of a review exactly if that is a request for an item's title and season;
      no item stands for a wash. */
  lemma MoviePilotHas(items: seq<Item>, r: Review)
    requires InInt64(r.tmdbId) && InInt64(r.season)
    requires forall i :: 0 <= i < |items| ==> InInt64(items[i].tmdbId) && InInt64(items[i].season)
    ensures KeyOf(r) in MoviePilotKeys(items)
            <==> r.business.Request?
                 && exists i :: 0 <= i < |items| && items[i].tmdbId == r.tmdbId && items[i].season == r.season
  {
    hide Key;
    forall i | 0 <= i < |items|
      ensures Key(Request, items[i].tmdbId, items[i].season) == KeyOf(r)
              <==> r.business.Request? && items[i].tmdbId == r.tmdbId && items[i].season == r.season
    {
      KeyInjective(Request, items[i].tmdbId, items[i].season, r.business, r.tmdbId, r.season);
    }
    if r.business.Request? {
      if i :| 0 <= i < |items| && items[i].tmdbId == r.tmdbId && items[i].season == r.season {
        assert Key(Request, items[i].tmdbId, items[i].season) == KeyOf(r);
      }
    }
  }

  lemma IssueParts(i: Issue)
    requires InInt64(i.id)
    ensures Split(IssueItem(i).name, ']') == ["[问题 #" + Itoa(i.id)] + Split(" " + i.title, ']')
  {
    hide Split, Itoa;
    AtoiOfItoa(i.id);
    SplitFirst("[问题 #" + Itoa(i.id), ']', " " + i.title);
    assert IssueItem(i).name == "[问题 #" + Itoa(i.id) + [']'] + (" " + i.title);
  }

  /** The line of an issue tells which issue it is. */
  lemma IssueLinesApart(i: Issue, j: Issue)
    requires InInt64(i.id) && InInt64(j.id)
    ensures IssueItem(i).name == IssueItem(j).name <==> i.id == j.id && i.title == j.title
    ensures IssueItem(i).kind == "问题" && IssueItem(i).season == 0 && IssueItem(i).tmdbId == 0
  {
    hide Split, Itoa, Atoi;
    var head := "[问题 #";
    IssueParts(i);
    IssueParts(j);
    AtoiOfItoa(i.id);
    AtoiOfItoa(j.id);
    assert IssueItem(i).name == IssueItem(j).name ==>
        Split(IssueItem(i).name, ']')[0] == head + Itoa(i.id) && Split(IssueItem(j).name, ']')[0] == head + Itoa(j.id);
    assert (head + Itoa(i.id))[5..] == Itoa(i.id) && (head + Itoa(j.id))[5..] == Itoa(j.id);
    assert IssueItem(i).name[7 + |Itoa(i.id)|..] == i.title && IssueItem(j).name[7 + |Itoa(j.id)|..] == j.title;
  }

  /** No line for a request that MoviePilot has taken over or that was rejected or withdrawn. */
  lemma NoLineFor(existing: set<string>, reviews: seq<Review>, r: Review)
    requires r in Chosen(existing, reviews) && r.business.Request?
    ensures r.subscriptionId == 0 && r.status != "rejected" && r.status != "cancelled"
  {
    ChosenEligible(existing, reviews);
  }

  /** A line for everything else, unless its key has one. */
  lemma LineForOther(existing: set<string>, reviews: seq<Review>, q: Review)
    requires q in reviews
    requires q.business.Wash? || (q.subscriptionId == 0 && q.status != "rejected" && q.status != "cancelled")
    ensures KeyOf(q) in existing || exists r :: r in Chosen(existing, reviews) && KeyOf(r) == KeyOf(q)
  {
    ChosenComplete(existing, reviews, q);
  }

  // ---- Pages and groups ----

  const PER_PAGE: nat := 10

  function TotalPages(total: nat): (pages: nat)
    ensures pages >= 1
  {
    if total == 0 then 1 else (total + PER_PAGE - 1) / PER_PAGE
  }

  /** The page that is shown when `page` is asked for: the nearest one there is. */
  function Clamp(page: int, pages: nat): (p: int)
    requires pages >= 1
    ensures 1 <= p <= pages && (1 <= page <= pages ==> p == page)
    ensures (page < 1 ==> p == 1) && (page > pages ==> p == pages)
  {
    var p := if page < 1 then 1 else page;
    if p > pages then pages else p
  }

  predicate OnPage(i: int, page: int, total: nat) {
    (page - 1) * PER_PAGE <= i < (page - 1) * PER_PAGE + PER_PAGE && i < total
  }

  /** Every item is on exactly one page, ten to a page, and no page is empty. */
  lemma PagesPartition(total: nat, i: nat)
    requires i < total
    ensures exists page :: 1 <= page <= TotalPages(total) && OnPage(i, page, total)
    ensures forall p, q :: OnPage(i, p, total) && OnPage(i, q, total) ==> p == q
    ensures forall p :: OnPage(i, p, total) <==> p == i / 10 + 1
    ensures TotalPages(total) == (total - 1) / 10 + 1 && OnPage(total - 1, TotalPages(total), total)
  {
    assert OnPage(i, i / PER_PAGE + 1, total);
  }

  datatype Group = Processing | Wish | Finished | Problem | Other

  const GROUPS: seq<(Group, set<string>)> := [
    (Processing, {REVIEWING, STUCK, WORK_ORDER, ISSUE_OPEN, "P", "R", "S", "D"}),
    (Wish, {"WISH"}),
    (Finished, {COMPLETED}),
    (Problem, {FAILED, CANCELLED})]

  function GroupOf(state: string): Group {
    if state in GROUPS[0].1 then Processing
    else if state in GROUPS[1].1 then Wish
    else if state in GROUPS[2].1 then Finished
    else if state in GROUPS[3].1 then Problem
    else Other
  }

  /** The group of every state. */
  lemma StateGroups(state: string)
    ensures GroupOf(state) == Wish <==> state == "WISH"
    ensures GroupOf(state) == Finished <==> state == "C"
    ensures GroupOf(state) == Problem <==> state == "F" || state == "X"
    ensures GroupOf(state) == Processing
            <==> state in {"REVIEWING", "STUCK", "WORK_ORDER", "ISSUE_OPEN", "P", "R", "S", "D"}
  {
  }

  /** An issue is finished when it was fixed or closed and in progress before. */
  lemma IssueGroup(i: Issue)
    ensures GroupOf(IssueItem(i).state) == if i.status == "fixed" || i.status == "closed" then Finished else Processing
    ensures IssueItem(i).state == "WORK_ORDER" <==> i.status == "processing" || i.status == "reply"
  {
  }

  /** Where the line of each kind of review lands: a completed one among the finished, a wash that
      was rejected or withdrawn and a request that failed for good among the problems, everything
      else in progress; a review never looks like a wish or like an unknown state. */
  lemma LineGroup(r: Review)
    requires Eligible(r)
    ensures var g := GroupOf(ItemOf(r).state);
            && (g == Finished <==> r.status == "completed")
            && (g == Problem <==> if r.business.Wash? then r.status == "rejected" || r.status == "cancelled"
                                  else r.status == "failed")
            && g != Wish && g != Other
  {
  }

  predicate Ascending(s: seq<int>) {
    forall i, j :: 0 <= i < j < |s| ==> s[i] < s[j]
  }

  predicate IsGrouping(bucket: map<Group, seq<int>>, states: seq<string>, start: int, end: int)
    requires 0 <= start <= end <= |states|
  {
    && bucket.Keys == {Processing, Wish, Finished, Problem, Other}
    && (forall g :: g in bucket ==>
          && Ascending(bucket[g])
          && (forall i :: i in bucket[g] ==> start <= i < end && GroupOf(states[i]) == g))
    && (forall i :: start <= i < end ==> GroupOf(states[i]) in bucket && i in bucket[GroupOf(states[i])])
  }

  lemma EveryGroup(g: Group)
    ensures g in {Processing, Wish, Finished, Problem, Other}
  {
  }

  lemma Placed(bucket: map<Group, seq<int>>, states: seq<string>, start: int, i: int, g: Group)
    requires 0 <= start <= i < |states| && IsGrouping(bucket, states, start, i) && g == GroupOf(states[i])
    ensures g in bucket && IsGrouping(bucket[g := bucket[g] + [i]], states, start, i + 1)
  {
    hide GroupOf;
    EveryGroup(g);
    var b := bucket[g := bucket[g] + [i]];
    forall h | h in b
      ensures Ascending(b[h]) && forall x :: x in b[h] ==> start <= x < i + 1 && GroupOf(states[x]) == h
    {
      if h == g { AppendLarger(bucket[h], i); }
    }
    forall x | start <= x < i + 1 ensures GroupOf(states[x]) in b && x in b[GroupOf(states[x])] {
      EveryGroup(GroupOf(states[x]));
      if x == i { assert b[g][|bucket[g]|] == i; }
    }
  }

  lemma AppendLarger(s: seq<int>, i: int)
    requires Ascending(s) && forall x :: x in s ==> x < i
    ensures Ascending(s + [i])
  {
    assert forall k :: 0 <= k < |s| ==> s[k] in s;
  }

  /** The groups of a page: each item of the page is in the group of its state and in no other, in
      the order of the list. */
  method GroupPage(states: seq<string>, page: int) returns (bucket: map<Group, seq<int>>, start: int, end: int)
    ensures 0 <= start <= end <= |states|
    ensures forall i :: start <= i < end <==> OnPage(i, Clamp(page, TotalPages(|states|)), |states|)
    ensures IsGrouping(bucket, states, start, end)
  {
    var totalPages := (|states| + PER_PAGE - 1) / PER_PAGE;
    if totalPages == 0 { totalPages := 1; }
    var p := page;
    if p < 1 { p := 1; }
    if p > totalPages { p := totalPages; }
    start := (p - 1) * PER_PAGE;
    end := start + PER_PAGE;
    if end > |states| { end := |states|; }
    bucket := map[Processing := [], Wish := [], Finished := [], Problem := [], Other := []];
    for i := start to end
      invariant IsGrouping(bucket, states, start, i)
    {
      var g := FindGroup(states[i]);
      Placed(bucket, states, start, i, g);
      bucket := bucket[g := bucket[g] + [i]];
    }
  }

  /** The inner loop: the first group of the list that has the state. */
  method FindGroup(state: string) returns (g: Group)
    ensures g == GroupOf(state)
  {
    for k := 0 to |GROUPS|
      invariant forall j :: 0 <= j < k ==> state !in GROUPS[j].1
    {
      if state in GROUPS[k].1 { return GROUPS[k].0; }
    }
    return Other;
  }
}

/** The Mini App search with its look-ahead cursor (internal/miniapp/server.go, lines 647-719 and
    784-817), over a fixed upstream that answers page by page. */
module SearchCursor {
  import opened Basics

  datatype Item = Item(id: int, kind: string)

  const MAX_LOOKAHEAD: nat := 3

  // ---- Types of results ----

  /** The small letter, where that is one of the letters a to z: of the letters A to Z, of the dotted I
      and of the kelvin sign. */
  function Lower(c: char): char {
    if 'A' <= c <= 'Z' then (c - 'A') + 'a'
    else if c == '\U{0130}' then 'i'
    else if c == '\U{212A}' then 'k'
    else c
  }

  function ToLower(s: string): string {
    seq(|s|, i requires 0 <= i < |s| => Lower(s[i]))
  }

  /** unicode.IsSpace: the property White_Space. */
  predicate IsSpace(c: char) {
    || '\U{0009}' <= c <= '\U{000D}' || c == ' ' || c == '\U{0085}' || c == '\U{00A0}' || c == '\U{1680}'
    || '\U{2000}' <= c <= '\U{200A}' || c == '\U{2028}' || c == '\U{2029}' || c == '\U{202F}'
    || c == '\U{205F}' || c == '\U{3000}'
  }

  function TrimLeft(s: string): string {
    if s != [] && IsSpace(s[0]) then TrimLeft(s[1..]) else s
  }

  function TrimRight(s: string): string {
    if s != [] && IsSpace(s[|s|-1]) then TrimRight(s[..|s|-1]) else s
  }

  function Canonical(value: string): Option<string> {
    var v := ToLower(TrimRight(TrimLeft(value)));
    if v == "电视剧" || v == "tv" then Some("tv")
    else if v == "电影" || v == "movie" then Some("movie")
    else None
  }

  /** The type that a search is restricted to, or "" for none. */
  function TypeOf(query: string): string {
    var t := ToLower(TrimRight(TrimLeft(query)));
    if t == "movie" || t == "tv" then t else ""
  }

  predicate OfKind(item: Item, kind: string) { Canonical(item.kind) == Some(kind) }

  function OnlyKind(items: seq<Item>, kind: string): seq<Item> {
    if items == [] then []
    else (if OfKind(items[0], kind) then [items[0]] else []) + OnlyKind(items[1..], kind)
  }

  /** The items of the wanted type, in order; every item if no type is wanted. */
  function Matching(items: seq<Item>, kind: string): seq<Item> {
    if kind == "" then items else OnlyKind(items, kind)
  }

  /** The items of a known type, under its canonical name. */
  function Normalised(items: seq<Item>): seq<Item> {
    if items == [] then []
    else (match Canonical(items[0].kind)
          case Some(kind) => [items[0].(kind := kind)]
          case None => []) + Normalised(items[1..])
  }

  method FilterSearchResults(results: seq<Item>, kind: string) returns (filtered: seq<Item>)
    ensures filtered == OnlyKind(results, kind)
  {
    hide OfKind;
    filtered := [];
    for i := 0 to |results|
      invariant OnlyKind(results, kind) == filtered + OnlyKind(results[i..], kind)
    {
      assert results[i..][1..] == results[i+1..];
      if OfKind(results[i], kind) { filtered := filtered + [results[i]]; }
    }
  }

  /** Overwrites the kept results in place in the original; here a new sequence. */
  method NormalizeSearchResultTypes(results: seq<Item>) returns (normalized: seq<Item>)
    ensures normalized == Normalised(results)
  {
    hide Canonical, Normalised;
    normalized := [];
    for i := 0 to |results|
      invariant Normalised(results) == normalized + Normalised(results[i..])
    {
      NormalisedOne(results[i], results[i+1..]);
      assert results[i..] == [results[i]] + results[i+1..];
      var kind := Canonical(results[i].kind);
      if kind.Some? { normalized := normalized + [results[i].(kind := kind.value)]; }
    }
    NoneShown();
  }

  /** Filtering goes item by item and keeps those of the type. */
  lemma OnlyKindOne(x: Item, rest: seq<Item>, kind: string)
    ensures OnlyKind([x] + rest, kind) == (if Canonical(x.kind) == Some(kind) then [x] else []) + OnlyKind(rest, kind)
    ensures OnlyKind([], kind) == []
  {
    assert ([x] + rest)[1..] == rest;
  }

  lemma CountBoth(a: seq<Item>, b: seq<Item>, x: Item)
    ensures multiset(a + b)[x] == multiset(a)[x] + multiset(b)[x]
  {
  }

  /** So every item of the type is kept, each as often, and no other. */
  lemma {:induction false} OnlyKindCount(items: seq<Item>, kind: string, x: Item)
    ensures multiset(OnlyKind(items, kind))[x] == if Canonical(x.kind) == Some(kind) then multiset(items)[x] else 0
  {
    hide OnlyKind, Canonical;
    OnlyKindOne(x, [], kind);
    if items != [] {
      var first, rest := items[0], items[1..];
      OnlyKindCount(rest, kind, x);
      OnlyKindOne(first, rest, kind);
      assert items == [first] + rest;
      CountBoth([first], rest, x);
      CountBoth(if Canonical(first.kind) == Some(kind) then [first] else [], OnlyKind(rest, kind), x);
    }
  }

  lemma NothingToTrim(s: string)
    requires s != [] && !IsSpace(s[0]) && !IsSpace(s[|s|-1])
    ensures TrimRight(TrimLeft(s)) == s
  {
  }

  lemma {:induction false} SpacesTrimmed(s: string)
    requires s != [] && !IsSpace(s[0]) && !IsSpace(s[|s|-1])
    ensures TrimRight(TrimLeft(" " + s)) == s && TrimRight(TrimLeft(s + " ")) == s
  {
    assert (" " + s)[1..] == s;
    NothingToTrim(s);
    assert (s + " ")[..|s|] == s;
  }

  /** The two types under all their names; nothing has a third type. */
  lemma CanonicalNames()
    ensures Canonical("tv") == Canonical("TV") == Canonical("电视剧") == Canonical(" tv") == Some("tv")
    ensures Canonical("movie") == Canonical("Movie") == Canonical("电影") == Canonical("movie ") == Some("movie")
    ensures Canonical("") == Canonical("person") == None
    ensures TypeOf("tv") == TypeOf("TV") == TypeOf(" tv") == "tv" && TypeOf("movie") == TypeOf("Movie") == "movie"
    ensures TypeOf("电影") == TypeOf("person") == TypeOf("") == ""
  {
    NameLetters();
    hide IsSpace;
    NothingToTrim("tv");
    NothingToTrim("TV");
    NothingToTrim("电视剧");
    NothingToTrim("电影");
    NothingToTrim("movie");
    NothingToTrim("Movie");
    NothingToTrim("person");
    SpacesTrimmed("tv");
    SpacesTrimmed("movie");
    LowerNames();
  }

  lemma NameLetters()
    ensures IsSpace(' ')
    ensures forall c :: c in {'t', 'v', 'T', 'V', 'm', 'e', 'M', 'p', 'n', '电', '剧', '影'} ==> !IsSpace(c)
  {
  }

  lemma LowerNames()
    ensures ToLower("tv") == ToLower("TV") == "tv" && ToLower("movie") == ToLower("Movie") == "movie"
    ensures ToLower("电视剧") == "电视剧" && ToLower("电影") == "电影" && ToLower("person") == "person" && ToLower("") == ""
  {
  }

  /** A type is what a trimmed name in small letters says, or none. */
  lemma TypesAreTwo(s: string)
    ensures Canonical(s).Some? ==> Canonical(s).value == "tv" || Canonical(s).value == "movie"
    ensures TypeOf(s) == "" || TypeOf(s) == "tv" || TypeOf(s) == "movie"
    ensures TypeOf(s) != "" ==> Canonical(s) == Some(TypeOf(s))
  {
  }

  lemma {:induction false} TrimmedEnd(s: string, c: char)
    requires IsSpace(c)
    ensures TrimRight(TrimLeft(s + [c])) == TrimRight(TrimLeft(s))
  {
    hide IsSpace;
    if s == [] {
      assert TrimLeft(s + [c]) == TrimLeft([]);
    } else if IsSpace(s[0]) {
      TrimmedEnd(s[1..], c);
      assert (s + [c])[1..] == s[1..] + [c];
    } else {
      assert (s + [c])[..|s|] == s;
    }
  }

  /** Blanks, tabs, line ends and the wide blank around a name make no difference. */
  lemma BlanksAround(s: string, c: char)
    requires c in {' ', '\t', '\n', '\r', '\U{00A0}', '\U{3000}'}
    ensures Canonical([c] + s) == Canonical(s) == Canonical(s + [c])
    ensures TypeOf([c] + s) == TypeOf(s) == TypeOf(s + [c])
  {
    assert ([c] + s)[1..] == s;
    TrimmedEnd(s, c);
  }

  // ---- One request ----

  /** The upstream: what it answers for a page, or None for an error. */
  type Upstream = int -> Option<seq<Item>>

  datatype Response = Response(results: seq<Item>, hasMore: bool, nextPage: int)

  function Lookahead(kind: string): nat { if kind == "" then 1 else MAX_LOOKAHEAD }

  /** The page is answered, is full, and has nothing of the wanted type. */
  predicate Skippable(up: Upstream, limit: int, kind: string, q: int) {
    up(q).Some? && |up(q).value| >= limit && Matching(up(q).value, kind) == []
  }

  predicate HasMatch(up: Upstream, kind: string, q: int) {
    up(q).Some? && Matching(up(q).value, kind) != []
  }

  /** `q` is where the cursor of `page` points: the first later page with a match, reached over
      full pages without one. */
  ghost predicate IsNext(up: Upstream, limit: int, kind: string, page: int, q: int) {
    && page < q <= page + Lookahead(kind)
    && HasMatch(up, kind, q)
    && forall r :: page < r < q ==> Skippable(up, limit, kind, r)
  }

  /** The cursor is unique. */
  lemma NextIsUnique(up: Upstream, limit: int, kind: string, page: int, q: int, n: int)
    requires IsNext(up, limit, kind, page, q) && IsNext(up, limit, kind, page, n)
    ensures q == n
  {
    assert !Skippable(up, limit, kind, q) && !Skippable(up, limit, kind, n);
  }

  /** The page that the cursor of a page points to: a page that is not full has none. */
  ghost function Next(up: Upstream, limit: int, kind: string, page: int): (next: Option<int>)
    ensures next.Some? ==> IsNext(up, limit, kind, page, next.value)
  {
    if up(page).Some? && |up(page).value| == limit && exists q :: IsNext(up, limit, kind, page, q)
    then (var q :| IsNext(up, limit, kind, page, q); Some(q)) else None
  }

  /** The items of a page that are shown. */
  function Shown(up: Upstream, kind: string, page: int): seq<Item> {
    if up(page).Some? then Normalised(Matching(up(page).value, kind)) else []
  }

  ghost function ResponseTo(up: Upstream, limit: int, kind: string, page: int): Option<Response> {
    if up(page).None? then None
    else match Next(up, limit, kind, page)
         case None => Some(Response(Shown(up, kind, page), false, 0))
         case Some(q) => Some(Response(Shown(up, kind, page), true, q))
  }

  /** A request for a non-empty query. None is an error response. */
  method HandleSearch(up: Upstream, page: int, limit: int, typeParam: string) returns (response: Option<Response>)
    ensures var p := if page < 1 then 1 else page;
            var l := if limit < 1 then 12 else if limit > 24 then 24 else limit;
            response == ResponseTo(up, l, TypeOf(typeParam), p)
  {
    hide IsNext, Matching, Normalised, TypeOf;
    var p := if page < 1 then 1 else page;
    var l := if limit < 1 then 12 else if limit > 24 then 24 else limit;
    var result := up(p);
    if result.None? { return None; }
    var upstreamCount := |result.value|;
    var kind := TypeOf(typeParam);
    var matching := Filtered(result.value, kind);
    var hasMore, nextPage := false, 0;
    if upstreamCount == l {
      hasMore, nextPage := LookAhead(up, p, l, kind);
      if hasMore { NextIsUnique(up, l, kind, p, nextPage, Next(up, l, kind, p).value); }
    }
    var normalized := NormalizeSearchResultTypes(matching);
    return Some(Response(normalized, hasMore, nextPage));
  }

  method Filtered(results: seq<Item>, kind: string) returns (matching: seq<Item>)
    ensures matching == Matching(results, kind)
  {
    matching := results;
    if kind != "" { matching := FilterSearchResults(results, kind); }
  }

  method LookAhead(up: Upstream, page: int, limit: int, kind: string) returns (hasMore: bool, nextPage: int)
    ensures hasMore <==> exists q :: IsNext(up, limit, kind, page, q)
    ensures if hasMore then IsNext(up, limit, kind, page, nextPage) else nextPage == 0
  {
    var lookahead := if kind != "" then MAX_LOOKAHEAD else 1;
    var q := page + 1;
    while q <= page + lookahead
      invariant page + 1 <= q <= page + lookahead + 1
      invariant forall r :: page < r < q ==> Skippable(up, limit, kind, r)
    {
      var next := up(q);
      if next.None? { NotBeyond(up, limit, kind, page, q); return false, 0; }
      var found := Filtered(next.value, kind);
      if |found| > 0 {
        assert IsNext(up, limit, kind, page, q);
        return true, q;
      }
      if |next.value| < limit { NotBeyond(up, limit, kind, page, q); return false, 0; }
      q := q + 1;
    }
    forall n ensures !IsNext(up, limit, kind, page, n) {
      assert page < n < q ==> Skippable(up, limit, kind, n);
    }
    return false, 0;
  }

  lemma NotBeyond(up: Upstream, limit: int, kind: string, page: int, q: int)
    requires page < q && !HasMatch(up, kind, q) && !Skippable(up, limit, kind, q)
    requires forall r :: page < r < q ==> Skippable(up, limit, kind, r)
    ensures !exists n :: IsNext(up, limit, kind, page, n)
  {
    forall n ensures !IsNext(up, limit, kind, page, n) {
      if page < n < q { assert Skippable(up, limit, kind, n); }
    }
  }

  // ---- Following the cursor ----

  /** No errors, and a page that is not full is the last one with anything; `last` bounds them.
      Pages are numbered from 1. */
  ghost predicate Regular(up: Upstream, limit: int, last: nat) {
    && limit > 0
    && (forall q :: 1 <= q ==> up(q).Some? && |up(q).value| <= limit)
    && (forall q, r :: 1 <= q < r && |up(q).value| < limit ==> up(r).value == [])
    && (forall q :: q > last ==> up(q).value == [])
  }

  /** What a client sees that follows the cursor from `page` on, and the page where it ends. */
  ghost function Crawl(up: Upstream, limit: int, kind: string, last: nat, page: int): (seq<Item>, int)
    requires Regular(up, limit, last) && page >= 1
    decreases if last < page then 0 else last - page + 1
  {
    var response := ResponseTo(up, limit, kind, page).value;
    if !response.hasMore then (response.results, page)
    else
      NextInside(up, limit, kind, last, page);
      var (rest, end) := Crawl(up, limit, kind, last, response.nextPage);
      (response.results + rest, end)
  }

  predicate Known(item: Item) { Canonical(item.kind).Some? }

  lemma NoneShown()
    ensures Normalised([]) == []
  {
  }

  lemma NormalisedOne(x: Item, rest: seq<Item>)
    ensures Normalised([x] + rest)
            == (if Known(x) then [x.(kind := Canonical(x.kind).value)] else []) + Normalised(rest)
  {
    assert ([x] + rest)[1..] == rest;
  }

  lemma {:induction false} NormalisedBoth(a: seq<Item>, b: seq<Item>)
    ensures Normalised(a + b) == Normalised(a) + Normalised(b)
  {
    hide Normalised, Canonical;
    if a == [] {
      NoneShown();
      assert a + b == b && [] + Normalised(b) == Normalised(b);
    } else {
      NormalisedBoth(a[1..], b);
      NormalisedOne(a[0], a[1..]);
      NormalisedOne(a[0], a[1..] + b);
      assert a == [a[0]] + a[1..] && a + b == [a[0]] + (a[1..] + b);
    }
  }

  lemma EmptyMatches(kind: string)
    ensures Matching([], kind) == []
  {
  }

  lemma NextInside(up: Upstream, limit: int, kind: string, last: nat, page: int)
    requires Regular(up, limit, last) && page >= 1 && Next(up, limit, kind, page).Some?
    ensures page < Next(up, limit, kind, page).value <= last
  {
    EmptyMatches(kind);
  }

  /** Every matching item of the pages `from` to `to`, in order. */
  function AllMatches(up: Upstream, kind: string, from: int, to: int): seq<Item>
    decreases if to < from then 0 else to - from + 1
  {
    if to < from then []
    else (if up(from).Some? then Matching(up(from).value, kind) else []) + AllMatches(up, kind, from + 1, to)
  }

  lemma {:induction false} SkippedMatches(up: Upstream, limit: int, kind: string, from: int, q: int, to: int)
    requires from <= q <= to + 1 && forall r :: from <= r < q ==> Skippable(up, limit, kind, r)
    ensures AllMatches(up, kind, from, to) == AllMatches(up, kind, q, to)
    decreases q - from
  {
    if from < q {
      assert Skippable(up, limit, kind, from);
      SkippedMatches(up, limit, kind, from + 1, q, to);
    }
  }

  lemma NextSkips(up: Upstream, limit: int, kind: string, page: int)
    requires Next(up, limit, kind, page).Some?
    ensures forall r :: page < r < Next(up, limit, kind, page).value ==> Skippable(up, limit, kind, r)
  {
  }

  /** Following the cursor shows every matching item up to its last page, none skipped and none
      repeated. */
  lemma {:induction false} CrawlShowsAll(up: Upstream, limit: int, kind: string, last: nat, page: int)
    requires Regular(up, limit, last) && page >= 1
    ensures var (items, end) := Crawl(up, limit, kind, last, page);
            page <= end && items == Normalised(AllMatches(up, kind, page, end))
    decreases if last < page then 0 else last - page + 1
  {
    hide Matching, IsNext, Normalised;
    var here := Matching(up(page).value, kind);
    match Next(up, limit, kind, page) {
      case None =>
        assert AllMatches(up, kind, page + 1, page) == [];
        assert AllMatches(up, kind, page, page) == here + [] == here;
      case Some(q) =>
        NextInside(up, limit, kind, last, page);
        CrawlShowsAll(up, limit, kind, last, q);
        NextSkips(up, limit, kind, page);
        var (_, end) := Crawl(up, limit, kind, last, q);
        SkippedMatches(up, limit, kind, page + 1, q, end);
        NormalisedBoth(here, AllMatches(up, kind, q, end));
        assert AllMatches(up, kind, page, end) == here + AllMatches(up, kind, q, end);
    }
  }

  // ---- What is shown of the matching items ----

  /** With a type: all of them, under that type. */
  lemma {:induction false} TypedShown(items: seq<Item>, kind: string)
    ensures var found := OnlyKind(items, kind);
            && |Normalised(found)| == |found|
            && forall i :: 0 <= i < |found| ==> Normalised(found)[i] == found[i].(kind := kind)
  {
    hide Canonical, Normalised;
    if items == [] {
      assert Normalised([]) == [] by { NoneShown(); }
    } else {
      TypedShown(items[1..], kind);
      NormalisedOne(items[0], OnlyKind(items[1..], kind));
      assert !OfKind(items[0], kind) ==> OnlyKind(items, kind) == OnlyKind(items[1..], kind);
    }
  }

  /** Without a type: all of a known type, so nothing at all exactly if there is none of those. */
  lemma {:induction false} UntypedShown(items: seq<Item>)
    ensures |Normalised(items)| <= |items|
    ensures |Normalised(items)| == |items| <==> forall item :: item in items ==> Known(item)
    ensures Normalised(items) == [] <==> forall item :: item in items ==> !Known(item)
  {
    hide Canonical, Normalised;
    if items == [] {
      NoneShown();
    } else {
      UntypedShown(items[1..]);
      NormalisedOne(items[0], items[1..]);
      assert [items[0]] + items[1..] == items;
      assert forall item :: item in items <==> item == items[0] || item in items[1..];
      hide Known;
    }
  }

  /** The cursor leads to a page that shows nothing exactly if the search has no type and the page
      has no item of a known type. */
  lemma CursorShowsNothingIff(up: Upstream, limit: int, kind: string, page: int, q: int)
    requires IsNext(up, limit, kind, page, q)
    ensures Shown(up, kind, q) == [] <==> kind == "" && forall item :: item in up(q).value ==> !Known(item)
  {
    if kind == "" { UntypedShown(up(q).value); } else { TypedShown(up(q).value, kind); }
  }

  const PEOPLE: Upstream :=
    (page: int) => Some(if page == 1 then [Item(1, "movie")] else if page == 2 then [Item(7, "person")] else [])

  lemma PersonUnknown()
    ensures !Known(Item(7, "person"))
  {
    var kind := "person";
    assert TrimRight(kind) == kind && TrimLeft(kind) == kind;
    assert ToLower(kind)[0] == 'p';
  }

  /** Such a cursor: the first page of a search for people. */
  lemma PeopleShowNothing()
    ensures Regular(PEOPLE, 1, 2) && Next(PEOPLE, 1, "", 1) == Some(2) && Shown(PEOPLE, "", 2) == []
  {
    hide Canonical, Normalised, Next, Shown;
    assert IsNext(PEOPLE, 1, "", 1, 2);
    NextIs(PEOPLE, 1, "", 1, 2);
    PersonUnknown();
    CursorShowsNothingIff(PEOPLE, 1, "", 1, 2);
  }

  lemma NextIs(up: Upstream, limit: int, kind: string, page: int, q: int)
    requires IsNext(up, limit, kind, page, q) && up(page).Some? && |up(page).value| == limit
    ensures Next(up, limit, kind, page) == Some(q)
  {
    hide IsNext;
    NextIsUnique(up, limit, kind, page, q, Next(up, limit, kind, page).value);
  }

  /** The search looks past a page without a match exactly if that page is full. */
  lemma LooksPastFull(up: Upstream, limit: int, kind: string, page: int)
    requires kind != "" && up(page + 1).Some? && Matching(up(page + 1).value, kind) == []
    ensures !IsNext(up, limit, kind, page, page + 1)
    ensures IsNext(up, limit, kind, page, page + 2)
            <==> |up(page + 1).value| >= limit && up(page + 2).Some? && Matching(up(page + 2).value, kind) != []
  {
    hide Matching;
    assert Skippable(up, limit, kind, page + 1) <==> |up(page + 1).value| >= limit;
  }

  /** An error exactly if the page fails; a cursor only from a full page and to a later one; without
      one the next page is 0. */
  lemma ResponseShape(up: Upstream, limit: int, kind: string, page: int)
    ensures var r := ResponseTo(up, limit, kind, page);
            && (r.None? <==> up(page).None?)
            && (r.Some? && r.value.hasMore ==> |up(page).value| == limit && page < r.value.nextPage <= page + 3)
            && (r.Some? && !r.value.hasMore ==> r.value.nextPage == 0)
  {
  }

  /** The full pages right after `page` have no match, as many as the search looks ahead. */
  ghost predicate GivesUp(up: Upstream, limit: int, kind: string, page: int) {
    && up(page).Some? && |up(page).value| == limit
    && forall q :: page < q <= page + Lookahead(kind) ==> Skippable(up, limit, kind, q)
  }

  /** With a type the search looks three pages ahead, without one page. */
  lemma GivesUpAfterThree(up: Upstream, limit: int, kind: string, page: int)
    ensures GivesUp(up, limit, kind, page)
            <==> && up(page).Some? && |up(page).value| == limit && Skippable(up, limit, kind, page + 1)
                 && (kind != "" ==> Skippable(up, limit, kind, page + 2) && Skippable(up, limit, kind, page + 3))
  {
  }

  lemma {:induction false} NothingAfterShort(up: Upstream, limit: int, kind: string, last: nat, q: int, from: int)
    requires Regular(up, limit, last) && 1 <= q && |up(q).value| < limit && q < from
    ensures AllMatches(up, kind, from, last) == []
    decreases if last < from then 0 else last - from + 1
  {
    if from <= last {
      EmptyMatches(kind);
      NothingAfterShort(up, limit, kind, last, q, from + 1);
    }
  }

  lemma SkippableInside(up: Upstream, limit: int, kind: string, last: nat, q: int)
    requires Regular(up, limit, last) && 1 <= q && Skippable(up, limit, kind, q)
    ensures q <= last && kind != ""
  {
  }

  /** Nothing is left from a short page without a match on. */
  lemma ShortEnds(up: Upstream, limit: int, kind: string, last: nat, q: int)
    requires Regular(up, limit, last) && 1 <= q && |up(q).value| < limit && !HasMatch(up, kind, q)
    ensures AllMatches(up, kind, q, last) == []
  {
    hide Matching;
    NothingAfterShort(up, limit, kind, last, q, q + 1);
  }

  /** Where there is no cursor, either nothing is left or the look-ahead gave up. */
  lemma NoCursor(up: Upstream, limit: int, kind: string, last: nat, page: int)
    requires Regular(up, limit, last) && page >= 1 && Next(up, limit, kind, page) == None
    ensures GivesUp(up, limit, kind, page) || AllMatches(up, kind, page + 1, last) == []
  {
    hide AllMatches, Matching, HasMatch;
    if |up(page).value| < limit {
      NothingAfterShort(up, limit, kind, last, page, page + 1);
    } else {
      var q := page + 1;
      while q <= page + Lookahead(kind) && Skippable(up, limit, kind, q)
        invariant page < q <= page + Lookahead(kind) + 1
        invariant forall r :: page < r < q ==> Skippable(up, limit, kind, r)
      {
        q := q + 1;
      }
      if q <= page + Lookahead(kind) {
        assert !IsNext(up, limit, kind, page, q);
        NoMatchIsShort(up, limit, kind, last, q);
        ShortEnds(up, limit, kind, last, q);
        if q > page + 1 {
          SkippableInside(up, limit, kind, last, q - 1);
          SkippedMatches(up, limit, kind, page + 1, q, last);
        }
      }
    }
  }

  lemma NoMatchIsShort(up: Upstream, limit: int, kind: string, last: nat, q: int)
    requires Regular(up, limit, last) && 1 <= q && !HasMatch(up, kind, q) && !Skippable(up, limit, kind, q)
    ensures |up(q).value| < limit
  {
  }

  lemma {:induction false} CrawlEnds(up: Upstream, limit: int, kind: string, last: nat, page: int)
    requires Regular(up, limit, last) && page >= 1
    ensures Next(up, limit, kind, Crawl(up, limit, kind, last, page).1) == None
    decreases if last < page then 0 else last - page + 1
  {
    match Next(up, limit, kind, page)
    case None =>
    case Some(q) =>
      NextInside(up, limit, kind, last, page);
      CrawlEnds(up, limit, kind, last, q);
  }

  /** From page 1 on the client sees every matching item there is (without a type: every item of a
      known type), unless three full pages in a row have none: there the cursor of a typed search
      ends. */
  lemma CrawlComplete(up: Upstream, limit: int, kind: string, last: nat)
    requires Regular(up, limit, last)
    ensures var (items, end) := Crawl(up, limit, kind, last, 1);
            && items == Normalised(AllMatches(up, kind, 1, end))
            && (AllMatches(up, kind, end + 1, last) == [] || (kind != "" && GivesUp(up, limit, kind, end)))
  {
    hide Crawl, AllMatches, Matching, Normalised, IsNext, Next, Regular;
    var (items, end) := Crawl(up, limit, kind, last, 1);
    CrawlShowsAll(up, limit, kind, last, 1);
    CrawlEnds(up, limit, kind, last, 1);
    NoCursor(up, limit, kind, last, end);
    if GivesUp(up, limit, kind, end) { SkippableInside(up, limit, kind, last, end + 1); }
  }
}

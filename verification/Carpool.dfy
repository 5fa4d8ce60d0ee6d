/** The carpool ledger (internal/services/carpool.go): who wants which title, kept in memory and
    in one file that is rewritten by every change. */
module Carpool {
  import opened Basics
  import opened Text
  import opened CarpoolKeys

  datatype Meta = Meta(title: string, year: string, poster: string, addedAt: Option<int>) {
    predicate IsBlank() { title == "" && year == "" && poster == "" && addedAt == None }
  }

  /** The two maps of the service. */
  datatype Pool = Pool(entries: map<string, set<int>>, metadata: map<string, Meta>)

  /** The file's contents: user sets become lists in an arbitrary order. */
  datatype Snapshot = Snapshot(entries: map<string, seq<int>>, metadata: map<string, Meta>)

  function Elements<T>(s: seq<T>): set<T> { set x | x in s }

  /** A duplicate-free listing of a set. */
  predicate IsListing<T>(list: seq<T>, s: set<T>) { Elements(list) == s && |list| == |s| }

  predicate Records(f: Snapshot, p: Pool) {
    && f.metadata == p.metadata
    && f.entries.Keys == p.entries.Keys
    && forall k :: k in p.entries ==> IsListing(f.entries[k], p.entries[k])
  }

  function Users(p: Pool, key: string): set<int> {
    if key in p.entries then p.entries[key] else {}
  }

  /** The users waiting under any of `keys`. */
  function Members(p: Pool, keys: set<string>): set<int> {
    set k, u | k in keys && u in Users(p, k) :: u
  }

  /** Equal, not telling a key without users from a missing key. */
  ghost predicate Same(p: Pool, q: Pool) {
    p.metadata == q.metadata && forall k :: Users(p, k) == Users(q, k)
  }

  function Added(p: Pool, key: string, user: int, meta: Meta): Pool {
    Pool(p.entries[key := Users(p, key) + {user}], if meta.IsBlank() then p.metadata else p.metadata[key := meta])
  }

  function Removed(p: Pool, key: string, user: int): Pool {
    var rest := Users(p, key) - {user};
    if rest == {} then Cleared(p, {key}) else p.(entries := p.entries[key := rest])
  }

  function Cleared(p: Pool, keys: set<string>): Pool {
    Pool(p.entries - keys, p.metadata - keys)
  }

  function InUse(p: Pool, keys: set<string>): set<string> {
    set k | k in keys && Users(p, k) != {}
  }

  // ---- Which keys an operation selects ----

  /** An arrival concerns its season and the any-season key; an unknown season, the latter. */
  function ArrivalKeys(tmdbId: int, mediaType: string, arrival: int): set<string> {
    if NormalSeason(mediaType, arrival) > 0
    then {Key(tmdbId, mediaType, NormalSeason(mediaType, arrival)), Key(tmdbId, mediaType, 0)}
    else {Key(tmdbId, mediaType, 0)}
  }

  function OfTitle(tmdbId: int, mediaType: string): string -> bool {
    (key: string) => Parse(key).Some? && Parse(key).value.mediaType == mediaType && Parse(key).value.tmdbId == tmdbId
  }

  function Matching(keys: set<string>, match_: string -> bool): set<string> {
    set k | k in keys && match_(k)
  }

  function TitleKeys(p: Pool, tmdbId: int, mediaType: string): set<string> {
    Matching(p.entries.Keys, OfTitle(tmdbId, mediaType))
  }

  /** A cancellation of one season concerns the same keys as its arrival; without a season, every
      key of the title. */
  function CancelKeys(p: Pool, tmdbId: int, mediaType: string, season: int): set<string> {
    if NormalSeason(mediaType, season) > 0 then ArrivalKeys(tmdbId, mediaType, season)
    else TitleKeys(p, tmdbId, mediaType)
  }

  // ---- Loading ----

  function Renamed<K>(keys: set<K>, name: K -> K): set<K> {
    set k | k in keys :: name(k)
  }

  /** The union of all lists whose keys are filed under name `n`. */
  function ListedAs<K>(f: map<K, seq<int>>, name: K -> K, n: K): set<int> {
    set k, u | k in f && name(k) == n && u in f[k] :: u
  }

  function MergedBy<K>(f: map<K, seq<int>>, name: K -> K): map<K, set<int>> {
    map n | n in Renamed(f.Keys, name) :: ListedAs(f, name, n)
  }

  /** One of the records whose keys are filed under one name. */
  ghost predicate PickedBy<K>(m: map<K, Meta>, f: map<K, Meta>, name: K -> K) {
    && m.Keys == Renamed(f.Keys, name)
    && forall n :: n in m ==> exists k :: k in f && name(k) == n && f[k] == m[n]
  }

  lemma RenamedOne<K>(keys: set<K>, name: K -> K, key: K)
    ensures Renamed(keys + {key}, name) == Renamed(keys, name) + {name(key)}
  {
  }

  lemma ListedOne<K>(f: map<K, seq<int>>, name: K -> K, key: K, ids: seq<int>, n: K)
    requires key !in f
    ensures ListedAs(f[key := ids], name, n) == ListedAs(f, name, n) + (if n == name(key) then Elements(ids) else {})
  {
    var g := f[key := ids];
    forall u | u in ListedAs(f, name, n) ensures u in ListedAs(g, name, n) {
      var k :| k in f && name(k) == n && u in f[k];
      assert g[k] == f[k];
    }
    if n == name(key) {
      forall u | u in Elements(ids) ensures u in ListedAs(g, name, n) { assert g[key] == ids; }
    }
  }

  /** Filing one more list. */
  lemma MergeOne<K>(f: map<K, seq<int>>, name: K -> K, key: K, ids: seq<int>)
    requires key !in f
    ensures var n, m := name(key), MergedBy(f, name);
            MergedBy(f[key := ids], name) == m[n := (if n in m then m[n] else {}) + Elements(ids)]
  {
    var g, n, m := f[key := ids], name(key), MergedBy(f, name);
    assert g.Keys == f.Keys + {key};
    RenamedOne(f.Keys, name, key);
    assert n !in m ==> ListedAs(f, name, n) == {};
    forall x | x in MergedBy(g, name)
      ensures MergedBy(g, name)[x] == m[n := (if n in m then m[n] else {}) + Elements(ids)][x]
    {
      ListedOne(f, name, key, ids, x);
    }
  }

  /** The first loop of `load`: the outcome does not depend on the order of the map. */
  method MergeLists<K>(f: map<K, seq<int>>, name: K -> K) returns (entries: map<K, set<int>>)
    ensures entries == MergedBy(f, name)
  {
    entries := map[];
    var rest := f.Keys;
    ghost var seen: map<K, seq<int>> := map[];
    while rest != {}
      invariant rest <= f.Keys
      invariant seen == map k | k in f && k !in rest :: f[k]
      invariant entries == MergedBy(seen, name)
      decreases |rest|
    {
      var key := Pick(rest);
      var users, newKey := Elements(f[key]), name(key);
      MergeOne(seen, name, key, f[key]);
      if newKey in entries {
        entries := entries[newKey := entries[newKey] + users];
      } else {
        assert {} + users == users;
        entries := entries[newKey := users];
      }
      seen := seen[key := f[key]];
      rest := rest - {key};
    }
    assert seen == f;
  }

  /** Halfway through the second loop: `source` tells from which key each record was taken. */
  ghost predicate PickedSoFar<K>(m: map<K, Meta>, source: map<K, K>, done: set<K>, f: map<K, Meta>, name: K -> K) {
    && m.Keys == Renamed(done, name) == source.Keys
    && forall n :: n in source ==> source[n] in f && name(source[n]) == n && f[source[n]] == m[n]
  }

  lemma PickNext<K>(m: map<K, Meta>, source: map<K, K>, done: set<K>, f: map<K, Meta>, name: K -> K, key: K)
    requires PickedSoFar(m, source, done, f, name) && key in f
    ensures if name(key) in m then PickedSoFar(m, source, done + {key}, f, name)
            else PickedSoFar(m[name(key) := f[key]], source[name(key) := key], done + {key}, f, name)
  {
    RenamedOne(done, name, key);
  }

  lemma PickNone<K>(f: map<K, Meta>, name: K -> K)
    ensures PickedSoFar(map[], map[], {}, f, name)
  {
  }

  lemma PickedAll<K>(m: map<K, Meta>, source: map<K, K>, f: map<K, Meta>, name: K -> K)
    requires PickedSoFar(m, source, f.Keys, f, name)
    ensures PickedBy(m, f, name)
  {
  }

  /** The second loop: the first record met for a name stays. */
  method PickMetadata<K>(f: map<K, Meta>, name: K -> K) returns (metadata: map<K, Meta>)
    ensures PickedBy(metadata, f, name)
  {
    metadata := map[];
    var rest := f.Keys;
    ghost var done, source: map<K, K> := {}, map[];
    PickNone(f, name);
    hide PickedSoFar, PickedBy;
    while rest != {}
      invariant rest <= f.Keys && done == f.Keys - rest && PickedSoFar(metadata, source, done, f, name)
      decreases |rest|
    {
      var key := Pick(rest);
      PickNext(metadata, source, done, f, name, key);
      if name(key) !in metadata {
        metadata := metadata[name(key) := f[key]];
        source := source[name(key) := key];
      }
      rest, done := rest - {key}, done + {key};
    }
    assert done == f.Keys;
    PickedAll(metadata, source, f, name);
  }

  /** What `load` makes of the user lists. */
  function Merged(f: map<string, seq<int>>): map<string, set<int>> {
    MergedBy(f, LoadKey)
  }

  /** What `load` may make of the metadata. */
  ghost predicate MetaLoads(m: map<string, Meta>, f: map<string, Meta>) {
    PickedBy(m, f, LoadKey)
  }

  // ---- The objects ----

  class CarpoolFile {
    /** None while there is no readable file. */
    var content: Option<Snapshot>

    constructor ()
      ensures content == None
    {
      content := None;
    }

    /** `atomicWriteFile`: all or nothing. */
    method Replace(s: Snapshot, ok: bool)
      modifies this
      ensures content == if ok then Some(s) else old(content)
    {
      if ok { content := Some(s); }
    }
  }

  lemma ListOne<T>(list: seq<T>, s: set<T>, x: T)
    requires IsListing(list, s) && x !in s
    ensures IsListing(list + [x], s + {x})
  {
    assert Elements(list + [x]) == Elements(list) + {x};
  }

  lemma Listed<T>(list: seq<T>, s: set<T>, x: T)
    requires IsListing(list, s)
    ensures x in list <==> x in s
  {
    assert x in list <==> x in Elements(list);
  }

  method Listing<T(==)>(s: set<T>) returns (list: seq<T>)
    ensures IsListing(list, s)
  {
    list := [];
    var rest := s;
    while rest != {}
      invariant rest <= s && IsListing(list, s - rest)
      decreases |rest|
    {
      var x := Pick(rest);
      assert s - (rest - {x}) == (s - rest) + {x};
      ListOne(list, s - rest, x);
      list := list + [x];
      rest := rest - {x};
    }
    assert s - {} == s;
  }

  /** The loop of `saveLocked`. */
  method ListAll<K(==)>(entries: map<K, set<int>>) returns (lists: map<K, seq<int>>)
    ensures lists.Keys == entries.Keys && forall k :: k in lists ==> IsListing(lists[k], entries[k])
  {
    hide IsListing;
    lists := map[];
    var rest := entries.Keys;
    while rest != {}
      invariant rest <= entries.Keys && lists.Keys == entries.Keys - rest
      invariant forall k :: k in lists ==> IsListing(lists[k], entries[k])
      decreases |rest|
    {
      var key := Pick(rest);
      var ids := Listing(entries[key]);
      lists := lists[key := ids];
      rest := rest - {key};
    }
  }

  method ListMatching(keys: set<string>, match_: string -> bool) returns (list: seq<string>)
    ensures IsListing(list, Matching(keys, match_))
  {
    list := [];
    var rest := keys;
    ghost var done := {};
    while rest != {}
      invariant rest <= keys && done == keys - rest && IsListing(list, Matching(done, match_))
      decreases |rest|
    {
      var key := Pick(rest);
      if match_(key) {
        ListOne(list, Matching(done, match_), key);
        list := list + [key];
        assert Matching(done + {key}, match_) == Matching(done, match_) + {key};
      } else {
        assert Matching(done + {key}, match_) == Matching(done, match_);
      }
      rest, done := rest - {key}, done + {key};
    }
    assert done == keys;
  }

  /** Appends the users of one key that are not listed yet. */
  method Notify(listed: seq<int>, seen: set<int>, users: set<int>) returns (all: seq<int>)
    requires IsListing(listed, seen)
    ensures IsListing(all, seen + users)
  {
    hide IsListing;
    all := listed;
    var rest := users;
    ghost var now := seen;
    while rest != {}
      invariant rest <= users && now == seen + (users - rest) && IsListing(all, now)
      decreases |rest|
    {
      var id := Pick(rest);
      Listed(all, now, id);
      if id !in all {
        ListOne(all, now, id);
        all := all + [id];
      } else {
        assert now + {id} == now;
      }
      rest, now := rest - {id}, now + {id};
    }
    assert now == seen + users;
  }

  // ---- Selecting keys one by one ----

  lemma MembersOne(p: Pool, keys: set<string>, key: string)
    ensures Members(p, keys + {key}) == Members(p, keys) + Users(p, key)
    ensures key in keys ==> Users(p, key) <= Members(p, keys)
  {
    forall u | u in Members(p, keys) ensures u in Members(p, keys + {key}) {
      var k :| k in keys && u in Users(p, k);
      assert k in keys + {key};
    }
    forall u | u in Users(p, key) ensures u in Members(p, keys + {key}) {
      assert key in keys + {key};
    }
  }

  lemma InUseOne(p: Pool, keys: set<string>, key: string)
    ensures InUse(p, keys + {key}) == InUse(p, keys) + (if Users(p, key) != {} then {key} else {})
    ensures InUse(p, keys) <= keys
  {
  }

  function Restrict<V>(m: map<string, V>, keys: set<string>): map<string, V> {
    map k | k in keys && k in m :: m[k]
  }

  lemma SelectNothing(p: Pool)
    ensures Members(p, {}) == {} && InUse(p, {}) == {}
    ensures Restrict(p.entries, {}) == map[] && Restrict(p.metadata, {}) == map[]
    ensures IsListing<int>([], {})
  {
  }

  lemma SelectUsed(p: Pool, keys: set<string>)
    ensures Restrict(p.entries, InUse(p, keys)).Keys == InUse(p, keys)
    ensures InUse(p, keys) == {} ==> Members(p, keys) == {}
  {
    if u :| u in Members(p, keys) {
      var k :| k in keys && u in Users(p, k);
      assert k in InUse(p, keys);
    }
  }

  /** Dropping the keys in use among `keys` empties exactly `keys`. */
  lemma ClearedUsers(p: Pool, keys: set<string>)
    ensures forall k :: Users(Cleared(p, InUse(p, keys)), k) == if k in keys then {} else Users(p, k)
    ensures InUse(p, keys) == {} ==> forall k :: k in keys ==> Users(p, k) == {}
  {
  }

  /** Putting a user into a set of a map and taking the user out again. */
  lemma AddUndone<K>(m: map<K, set<int>>, key: K, user: int)
    ensures var users := if key in m then m[key] else {};
            var m1 := m[key := users + {user}];
            if user in users then m1[key := m1[key] + {user}] == m
            else
              var m2 := m1[key := m1[key] - {user}];
              m2[key] == users && m2 - {key} == m - {key} && (users != {} ==> m2 == m)
  {
    var users := if key in m then m[key] else {};
    assert users + {user} - {user} == users - {user};
    if user in users { assert users + {user} + {user} == users; }
    else { assert users - {user} == users; }
  }

  lemma SetUndone<K, V>(m: map<K, V>, key: K, v: V)
    ensures key in m ==> m[key := v][key := m[key]] == m && m[key := m[key]] == m && (m - {key})[key := m[key]] == m
    ensures key !in m ==> m[key := v] - {key} == m && m - {key} == m
  {
  }

  /** A key listed without users may be dropped. */
  lemma SameWithoutEmpty(p: Pool, q: Pool, key: string)
    requires Same(p, q)
    ensures Users(p, key) == {} ==> Same(p.(entries := p.entries - {key}), q)
  {
  }

  lemma SameItself(p: Pool)
    ensures Same(p, p)
  {
  }

  lemma ClearNothing(p: Pool)
    ensures Cleared(p, {}) == p
  {
  }

  lemma PutBack<V>(m: map<string, V>, keys: set<string>)
    ensures (m - keys) + Restrict(m, keys) == m
  {
  }

  lemma TakeOneMore<V>(m: map<string, V>, gone: set<string>, key: string)
    ensures m - gone - {key} == m - (gone + {key})
    ensures Restrict(m, gone + {key})
            == if key in m then Restrict(m, gone)[key := m[key]] else Restrict(m, gone)
  {
  }

  lemma NoElements()
    ensures Elements<string>([]) == {}
  {
  }

  /** Who waits under which key. */
  function Seats(p: Pool, keys: set<string>): set<(string, int)> {
    set k, u | k in keys && u in Users(p, k) :: (k, u)
  }

  function Tagged<T>(key: string, users: set<T>): set<(string, T)> {
    set u | u in users :: (key, u)
  }

  lemma {:induction false} TaggedSize<T>(key: string, users: set<T>)
    ensures |Tagged(key, users)| == |users|
  {
    if users == {} {
      assert Tagged(key, users) == {};
    } else {
      var u :| u in users;
      TaggedSize(key, users - {u});
      assert Tagged(key, users) == Tagged(key, users - {u}) + {(key, u)};
    }
  }

  lemma SeatsNone(p: Pool)
    ensures Seats(p, {}) == {}
  {
  }

  lemma UsersOf(p: Pool, key: string)
    requires key in p.entries
    ensures Users(p, key) == p.entries[key]
  {
  }

  lemma SeatsOne(p: Pool, keys: set<string>, key: string)
    requires key !in keys
    ensures |Seats(p, keys + {key})| == |Seats(p, keys)| + |Users(p, key)|
  {
    hide Users;
    TaggedSize(key, Users(p, key));
    var more := Tagged(key, Users(p, key));
    forall x | x in more ensures x in Seats(p, keys + {key}) && x !in Seats(p, keys) {
      var u: int := x.1;
      assert x == (key, u) && u in Users(p, key);
      assert (key, u) in Seats(p, keys + {key});
    }
    forall x | x in Seats(p, keys + {key}) ensures x in Seats(p, keys) || x in more {
      assert x == (x.0, x.1) && x.1 in Users(p, x.0);
    }
    assert Seats(p, keys + {key}) == Seats(p, keys) + more;
  }

  /** Nobody waits under two of the keys. */
  ghost predicate Apart(p: Pool, keys: set<string>) {
    forall j, k :: j in keys && k in keys && j != k ==> Users(p, j) !! Users(p, k)
  }

  lemma ApartOne(p: Pool, keys: set<string>, key: string)
    requires key !in keys
    ensures Apart(p, keys + {key}) <==> Apart(p, keys) && Members(p, keys) * Users(p, key) == {}
  {
    hide Users;
    if Apart(p, keys + {key}) {
      forall u | u in Members(p, keys) ensures u !in Users(p, key) {
        var j :| j in keys && u in Users(p, j);
        assert j in keys + {key} && key in keys + {key};
      }
    }
    if Members(p, keys) * Users(p, key) == {} {
      forall j | j in keys ensures Users(p, j) !! Users(p, key) {
        MembersOne(p, keys, j);
        assert forall u :: u in Users(p, j) ==> u !in Members(p, keys) * Users(p, key);
      }
    }
  }

  /** Counting seats counts nobody twice exactly if nobody waits under two of the keys. */
  lemma {:induction false} MembersSize(p: Pool, keys: set<string>)
    ensures |Members(p, keys)| <= |Seats(p, keys)|
    ensures |Members(p, keys)| == |Seats(p, keys)| <==> Apart(p, keys)
  {
    hide Users, Apart, Members, Seats;
    if key :| key in keys {
      var rest := keys - {key};
      MembersSize(p, rest);
      assert rest + {key} == keys;
      MembersOne(p, rest, key);
      SeatsOne(p, rest, key);
      ApartOne(p, rest, key);
      assert |Members(p, keys)| + |Members(p, rest) * Users(p, key)| == |Members(p, rest)| + |Users(p, key)|;
    } else {
      assert keys == {};
      SeatsNone(p);
      SelectNothing(p);
      ApartNone(p);
    }
  }

  lemma ApartNone(p: Pool)
    ensures Apart(p, {})
  {
  }

  /** What selecting one more key adds, and what taking it out does to the maps. */
  lemma SelectKey(p: Pool, done: set<string>, key: string)
    ensures var gone := InUse(p, done);
            if key in p.entries - gone && (p.entries - gone)[key] != {} then
              var users := (p.entries - gone)[key];
              && InUse(p, done + {key}) == gone + {key} && Members(p, done + {key}) == Members(p, done) + users
              && p.entries - gone - {key} == p.entries - (gone + {key})
              && p.metadata - gone - {key} == p.metadata - (gone + {key})
              && Restrict(p.entries, gone + {key}) == Restrict(p.entries, gone)[key := users]
              && Restrict(p.metadata, gone + {key})
                 == (if key in p.metadata - gone then Restrict(p.metadata, gone)[key := (p.metadata - gone)[key]]
                     else Restrict(p.metadata, gone))
            else InUse(p, done + {key}) == gone && Members(p, done + {key}) == Members(p, done)
  {
    var gone := InUse(p, done);
    MembersOne(p, done, key);
    InUseOne(p, done, key);
    hide Members, Restrict;
    TakeOneMore(p.entries, gone, key);
    TakeOneMore(p.metadata, gone, key);
  }

  lemma FirstKeys(keys: seq<string>, i: nat)
    requires i < |keys|
    ensures Elements(keys[..i+1]) == Elements(keys[..i]) + {keys[i]}
  {
    assert keys[..i+1] == keys[..i] + [keys[i]];
  }

  class CarpoolService {
    var entries: map<string, set<int>>
    var metadata: map<string, Meta>
    const file: CarpoolFile
    /** What the file last took from this process or gave to it. */
    ghost var base: Pool
    ghost var written: bool

    ghost function Contents(): Pool
      reads this
    {
      Pool(entries, metadata)
    }

    /** Memory and file agree. */
    ghost predicate InSync()
      reads this, file
    {
      && Same(Contents(), base)
      && (written ==> file.content.Some? && Records(file.content.value, base))
    }

    constructor (file: CarpoolFile)
      ensures InSync() && this.file == file
      ensures file.content == None ==> Contents() == Pool(map[], map[])
      ensures file.content.Some? ==>
                entries == Merged(file.content.value.entries) && MetaLoads(metadata, file.content.value.metadata)
    {
      this.file := file;
      entries, metadata := map[], map[];
      base, written := Pool(map[], map[]), false;
      new;
      if file.content.Some? {
        entries := MergeLists(file.content.value.entries, LoadKey);
        metadata := PickMetadata(file.content.value.metadata, LoadKey);
        base := Contents();
      }
    }

    method SaveLocked(ok: bool)
      modifies file, this`base, this`written
      ensures ok ==> base == Contents() && written && file.content.Some? && Records(file.content.value, base)
      ensures !ok ==> base == old(base) && written == old(written) && file.content == old(file.content)
    {
      hide IsListing;
      var lists := ListAll(entries);
      file.Replace(Snapshot(lists, metadata), ok);
      if ok { base, written := Contents(), true; }
    }

    method UndoAdd(
        ghost before: Pool, key: string, user: int, ghost meta: Meta,
        previous: bool, hadMeta: bool, previousMeta: Meta)
      requires Contents() == Added(before, key, user, meta)
      requires previous == (user in Users(before, key)) && hadMeta == (key in before.metadata)
      requires hadMeta ==> previousMeta == before.metadata[key]
      modifies this`entries, this`metadata
      ensures metadata == before.metadata
      ensures entries == if Users(before, key) == {} then before.entries - {key} else before.entries
    {
      AddUndone(before.entries, key, user);
      SetUndone(before.metadata, key, meta);
      if previous {
        entries := entries[key := entries[key] + {user}];
      } else {
        entries := entries[key := entries[key] - {user}];
        if entries[key] == {} { entries := entries - {key}; }
      }
      metadata := if hadMeta then metadata[key := previousMeta] else metadata - {key};
    }

    method UndoRemove(ghost before: Pool, key: string, user: int, hadMeta: bool, previousMeta: Meta)
      requires user in Users(before, key) && Contents() == Removed(before, key, user)
      requires hadMeta == (key in before.metadata) && (hadMeta ==> previousMeta == before.metadata[key])
      modifies this`entries, this`metadata
      ensures Contents() == before
    {
      if key !in entries { entries := entries[key := {}]; }
      entries := entries[key := entries[key] + {user}];
      if hadMeta { metadata := metadata[key := previousMeta]; }
      assert entries[key] == before.entries[key];
      assert entries == before.entries && metadata == before.metadata;
    }

    /** The change in memory, and what it takes to undo it. */
    method PutUser(key: string, user: int, meta: Meta)
      returns (count: nat, previous: bool, hadMeta: bool, previousMeta: Meta)
      modifies this`entries, this`metadata
      ensures Contents() == Added(old(Contents()), key, user, meta)
      ensures count == |Users(old(Contents()), key) + {user}| && previous == (user in Users(old(Contents()), key))
      ensures hadMeta == (key in old(metadata)) && (hadMeta ==> previousMeta == old(metadata)[key])
    {
      ghost var before := Contents();
      if key !in entries { entries := entries[key := {}]; }
      previous := user in entries[key];
      hadMeta := key in metadata;
      previousMeta := if hadMeta then metadata[key] else Meta("", "", "", None);
      entries := entries[key := entries[key] + {user}];
      if meta.title != "" || meta.year != "" || meta.poster != "" || meta.addedAt.Some? {
        metadata := metadata[key := meta];
      }
      count := |entries[key]|;
      assert entries == before.entries[key := Users(before, key) + {user}];
    }

    /** `ok` tells whether the write of this operation would succeed.  After a failure everything
        is as before, except that a key listed without users is dropped. */
    method AddWithMetadataChecked(tmdbId: int, mediaType: string, season: int, user: int, meta: Meta, ok: bool)
      returns (count: nat, failed: bool)
      requires InSync()
      modifies this, file
      ensures InSync() && failed == !ok
      ensures var key := Key(tmdbId, mediaType, season);
              && count == |Users(old(Contents()), key) + {user}|
              && (ok ==> written && Contents() == Added(old(Contents()), key, user, meta) == base)
              && (!ok ==> file.content == old(file.content) && metadata == old(metadata)
                          && entries == if Users(old(Contents()), key) == {} then old(entries) - {key}
                                        else old(entries))
    {
      hide Same, Records, IsListing, Added, Key, Users;
      var key := Key(tmdbId, mediaType, season);
      ghost var before := Contents();
      var previous, hadMeta, previousMeta;
      count, previous, hadMeta, previousMeta := PutUser(key, user, meta);
      SameItself(Contents());
      SaveLocked(ok);
      failed := !ok;
      if failed {
        UndoAdd(before, key, user, meta, previous, hadMeta, previousMeta);
        SameWithoutEmpty(before, base, key);
      }
    }

    method RemoveChecked(tmdbId: int, mediaType: string, season: int, user: int, ok: bool)
      returns (removed: bool, failed: bool)
      requires InSync()
      modifies this, file
      ensures InSync()
      ensures var key := Key(tmdbId, mediaType, season);
              var present := user in Users(old(Contents()), key);
              && removed == (present && ok) && failed == (present && !ok)
              && (removed ==> written && Contents() == Removed(old(Contents()), key, user) == base)
              && (!removed ==> Contents() == old(Contents()) && file.content == old(file.content))
    {
      var key := Key(tmdbId, mediaType, season);
      ghost var before := Contents();
      if key !in entries || user !in entries[key] { return false, false; }
      entries := entries[key := entries[key] - {user}];
      var hadMeta := key in metadata;
      var previousMeta := if hadMeta then metadata[key] else Meta("", "", "", None);
      if entries[key] == {} {
        entries := entries - {key};
        metadata := metadata - {key};
      }
      assert Contents() == Removed(before, key, user);
      SaveLocked(ok);
      if !ok {
        UndoRemove(before, key, user, hadMeta, previousMeta);
        return false, true;
      }
      return true, false;
    }

    method GetAndClear(tmdbId: int, mediaType: string, season: int, ok: bool) returns (ids: seq<int>)
      requires InSync()
      modifies this, file
      ensures InSync()
      ensures var key := Key(tmdbId, mediaType, season);
              var users := Users(old(Contents()), key);
              && IsListing(ids, if ok then users else {})
              && (ok && users != {} ==> written && Contents() == Cleared(old(Contents()), {key}) == base)
              && (!ok || users == {} ==> Contents() == old(Contents()) && file.content == old(file.content))
    {
      var key := Key(tmdbId, mediaType, season);
      ghost var before := Contents();
      if key !in entries || entries[key] == {} { return []; }
      var users := entries[key];
      ids := Listing(users);
      entries := entries - {key};
      var hadMeta := key in metadata;
      var meta := if hadMeta then metadata[key] else Meta("", "", "", None);
      metadata := metadata - {key};
      SaveLocked(ok);
      if !ok {
        entries := entries[key := users];
        if hadMeta { metadata := metadata[key := meta]; }
        assert Contents() == before;
        return [];
      }
    }

    /** The loop of `clearKeysLocked`: what it took out, so that it can be put back. */
    method TakeOut(keys: seq<string>)
      returns (saved: map<string, set<int>>, savedMeta: map<string, Meta>, notified: seq<int>)
      modifies this`entries, this`metadata
      ensures var p, gone := old(Contents()), InUse(old(Contents()), Elements(keys));
              && Contents() == Cleared(p, gone)
              && saved == Restrict(p.entries, gone) && savedMeta == Restrict(p.metadata, gone)
              && IsListing(notified, Members(p, Elements(keys)))
    {
      hide Members, InUse, Restrict, IsListing, Users, Elements;
      saved, savedMeta, notified := map[], map[], [];
      var seen := {};
      ghost var p, done, gone := Contents(), {}, {};
      SelectNothing(p);
      NoElements();
      for i := 0 to |keys|
        invariant done == Elements(keys[..i]) && gone == InUse(p, done)
        invariant entries == p.entries - gone && metadata == p.metadata - gone
        invariant saved == Restrict(p.entries, gone) && savedMeta == Restrict(p.metadata, gone)
        invariant seen == Members(p, done) && IsListing(notified, seen)
      {
        var key := keys[i];
        FirstKeys(keys, i);
        SelectKey(p, done, key);
        if key in entries && entries[key] != {} {
          var users := entries[key];
          notified := Notify(notified, seen, users);
          seen := seen + users;
          saved := saved[key := users];
          if key in metadata { savedMeta := savedMeta[key := metadata[key]]; }
          entries := entries - {key};
          metadata := metadata - {key};
          gone := gone + {key};
        }
        done := done + {key};
      }
      assert keys[..|keys|] == keys;
    }

    method Restore(ghost p: Pool, ghost gone: set<string>, saved: map<string, set<int>>, savedMeta: map<string, Meta>)
      requires Contents() == Cleared(p, gone)
      requires saved == Restrict(p.entries, gone) && savedMeta == Restrict(p.metadata, gone)
      modifies this`entries, this`metadata
      ensures Contents() == p
    {
      PutBack(p.entries, gone);
      PutBack(p.metadata, gone);
      entries := entries + saved;
      metadata := metadata + savedMeta;
    }

    /** Empties the listed keys and returns their users, each once; if the save fails, nothing
        happens and nobody is returned. */
    method ClearKeysLocked(keys: seq<string>, ok: bool) returns (notified: seq<int>)
      requires InSync()
      modifies this, file
      ensures InSync()
      ensures var p, gone := old(Contents()), InUse(old(Contents()), Elements(keys));
              && IsListing(notified, if ok then Members(p, Elements(keys)) else {})
              && (ok && gone != {} ==> written && Contents() == Cleared(p, gone) == base)
              && (!ok || gone == {} ==> Contents() == p && file.content == old(file.content))
    {
      hide Members, InUse, Restrict, IsListing, Records, Same;
      ghost var p := Contents();
      ghost var gone := InUse(p, Elements(keys));
      var saved, savedMeta, all := TakeOut(keys);
      SelectNothing(p);
      SelectUsed(p, Elements(keys));
      if saved == map[] {
        assert gone == {};
        ClearNothing(p);
        return [];
      }
      SameItself(Contents());
      SaveLocked(ok);
      if !ok {
        Restore(p, gone, saved, savedMeta);
        return [];
      }
      return all;
    }

    method ArrivalSeasons(tmdbId: int, mediaType: string, arrival: int) returns (keys: seq<string>)
      ensures Elements(keys) == CancelKeys(Contents(), tmdbId, mediaType, arrival)
    {
      var season := NormalSeason(mediaType, arrival);
      if season > 0 {
        return [Key(tmdbId, mediaType, season), Key(tmdbId, mediaType, 0)];
      }
      keys := ListMatching(entries.Keys, OfTitle(tmdbId, mediaType));
    }

    function ArrivalKeyList(tmdbId: int, mediaType: string, arrival: int): (keys: seq<string>)
      ensures Elements(keys) == ArrivalKeys(tmdbId, mediaType, arrival)
    {
      var season := NormalSeason(mediaType, arrival);
      if season > 0 then [Key(tmdbId, mediaType, season), Key(tmdbId, mediaType, 0)] else [Key(tmdbId, mediaType, 0)]
    }

    /** Exactly the users that an immediately following `GetAndClearArrival` returns if it saves. */
    method GetArrivalMembers(tmdbId: int, mediaType: string, arrival: int) returns (users: seq<int>)
      ensures IsListing(users, Members(Contents(), ArrivalKeys(tmdbId, mediaType, arrival)))
    {
      users := UsersUnder(ArrivalKeyList(tmdbId, mediaType, arrival));
    }

    /** The users under the listed keys, each once. */
    method UsersUnder(keys: seq<string>) returns (users: seq<int>)
      ensures IsListing(users, Members(Contents(), Elements(keys)))
    {
      users := [];
      var seen := {};
      for i := 0 to |keys|
        modifies {}
        invariant seen == Members(Contents(), Elements(keys[..i])) && IsListing(users, seen)
      {
        FirstKeys(keys, i);
        MembersOne(Contents(), Elements(keys[..i]), keys[i]);
        var more := if keys[i] in entries then entries[keys[i]] else {};
        users := Notify(users, seen, more);
        seen := seen + more;
      }
      assert keys[..|keys|] == keys;
    }

    /** A season has arrived: empties that season and the any-season key, nothing else. */
    method GetAndClearArrival(tmdbId: int, mediaType: string, arrival: int, ok: bool) returns (notified: seq<int>)
      requires InSync()
      modifies this, file
      ensures InSync()
      ensures var p, keys := old(Contents()), ArrivalKeys(tmdbId, mediaType, arrival);
              && IsListing(notified, if ok then Members(p, keys) else {})
              && Contents() == (if ok then Cleared(p, InUse(p, keys)) else p)
              && (ok ==> forall k :: Users(Contents(), k) == if k in keys then {} else Users(p, k))
    {
      hide Members, IsListing, Records, Same, ArrivalKeys;
      ghost var p := Contents();
      ClearedUsers(p, ArrivalKeys(tmdbId, mediaType, arrival));
      ClearNothing(p);
      notified := ClearKeysLocked(ArrivalKeyList(tmdbId, mediaType, arrival), ok);
    }

    /** A title or season was cancelled. */
    method ClearArrival(tmdbId: int, mediaType: string, season: int, ok: bool) returns (notified: seq<int>)
      requires InSync()
      modifies this, file
      ensures InSync()
      ensures var p := old(Contents());
              var keys := CancelKeys(p, tmdbId, mediaType, season);
              && IsListing(notified, if ok then Members(p, keys) else {})
              && Contents() == (if ok then Cleared(p, InUse(p, keys)) else p)
              && (ok ==> forall k :: Users(Contents(), k) == if k in keys then {} else Users(p, k))
    {
      hide Members, IsListing, Records, Same, CancelKeys;
      ghost var p := Contents();
      var keys := ArrivalSeasons(tmdbId, mediaType, season);
      ClearedUsers(p, Elements(keys));
      ClearNothing(p);
      notified := ClearKeysLocked(keys, ok);
    }

    /** Everybody waiting for any season of a title. */
    method GetAll(tmdbId: int, mediaType: string) returns (users: seq<int>)
      ensures IsListing(users, Members(Contents(), TitleKeys(Contents(), tmdbId, mediaType)))
    {
      var keys := ListMatching(entries.Keys, OfTitle(tmdbId, mediaType));
      users := UsersUnder(keys);
    }

    /** A user who waits for two seasons counts twice. */
    method CountAll(tmdbId: int, mediaType: string) returns (total: nat)
      ensures total == |Seats(Contents(), TitleKeys(Contents(), tmdbId, mediaType))|
    {
      hide Users, OfTitle;
      total := 0;
      ghost var p, done := Contents(), {};
      var rest := entries.Keys;
      SeatsNone(p);
      while rest != {}
        modifies {}
        invariant rest <= entries.Keys && done == Matching(entries.Keys - rest, OfTitle(tmdbId, mediaType))
        invariant total == |Seats(p, done)|
        decreases |rest|
      {
        var key := Pick(rest);
        if OfTitle(tmdbId, mediaType)(key) {
          SeatsOne(p, done, key);
          UsersOf(p, key);
          total := total + |entries[key]|;
          done := done + {key};
        }
        rest := rest - {key};
      }
      assert entries.Keys - {} == entries.Keys;
    }
  }

  // ---- What the lists and the file promise ----

  /** A listing names everybody once. */
  lemma {:induction false} ListingNamesOnce<T>(list: seq<T>, s: set<T>)
    requires IsListing(list, s)
    ensures forall x :: x in list <==> x in s
    ensures forall i, j :: 0 <= i < j < |list| ==> list[i] != list[j]
    decreases |list|
  {
    assert forall x :: x in list <==> x in Elements(list);
    if list != [] {
      var n := |list| - 1;
      var last, rest := list[n], list[..n];
      assert list == rest + [last];
      assert Elements(list) == Elements(rest) + {last};
      ElementsSize(rest);
      assert last !in Elements(rest);
      assert Elements(rest) == s - {last};
      ListingNamesOnce(rest, s - {last});
      assert forall i :: 0 <= i < n ==> list[i] in Elements(rest);
    }
  }

  lemma {:induction false} ElementsSize<T>(list: seq<T>)
    ensures |Elements(list)| <= |list|
  {
    if list != [] {
      var n := |list| - 1;
      ElementsSize(list[..n]);
      assert Elements(list) == Elements(list[..n]) + {list[n]};
    }
  }

  /** While memory and file are in sync, a restart loses and adds nobody of any title. */
  lemma InSyncSurvives(p: Pool, base: Pool, f: Snapshot, q: Pool, tmdbId: int, mediaType: string, u: int)
    requires Same(p, base) && Records(f, base) && q.entries == Merged(f.entries)
    ensures (exists k :: OfTitle(tmdbId, mediaType)(k) && Waits(p, k, u))
            <==> exists k :: OfTitle(tmdbId, mediaType)(k) && Waits(q, k, u)
    ensures f.metadata == p.metadata
  {
    hide OfTitle, Merged, Records;
    RecordsMeta(f, base);
    ReloadKeepsTitles(f, base, q, tmdbId, mediaType);
    WaitsForTitle(base, tmdbId, mediaType, u);
    WaitsForTitle(q, tmdbId, mediaType, u);
    forall k ensures Waits(p, k, u) <==> Waits(base, k, u) {
      assert u in Users(p, k) <==> u in Users(base, k);
    }
  }

  lemma RecordsMeta(f: Snapshot, p: Pool)
    requires Records(f, p)
    ensures f.metadata == p.metadata
  {
  }

  lemma WaitsForTitle(p: Pool, tmdbId: int, mediaType: string, u: int)
    ensures u in Members(p, TitleKeys(p, tmdbId, mediaType))
            <==> exists k :: OfTitle(tmdbId, mediaType)(k) && Waits(p, k, u)
  {
    var keys := TitleKeys(p, tmdbId, mediaType);
    if k :| OfTitle(tmdbId, mediaType)(k) && Waits(p, k, u) { assert k in keys && u in Users(p, k); }
    if u in Members(p, keys) {
      var k :| k in keys && u in Users(p, k);
      assert Waits(p, k, u);
    }
  }

  // ---- Who waits, operation by operation ----

  predicate Waits(p: Pool, key: string, user: int) {
    key in p.entries && user in p.entries[key]
  }

  /** Joining: the new user waits besides everybody who did; a record with a field that is given
      replaces the one of the key, and no other record changes. */
  lemma JoinAdds(p: Pool, key: string, user: int, meta: Meta)
    ensures var q := Added(p, key, user, meta);
            && (forall k, u :: Waits(q, k, u) <==> Waits(p, k, u) || (k == key && u == user))
            && (forall k :: k != key ==> (k in q.metadata <==> k in p.metadata))
            && (forall k :: k != key && k in p.metadata ==> q.metadata[k] == p.metadata[k])
            && (if meta.title != "" || meta.year != "" || meta.poster != "" || meta.addedAt != None
                then key in q.metadata && q.metadata[key] == meta else q.metadata == p.metadata)
  {
  }

  /** Leaving: that user waits no more under that key, and nothing else changes; the record goes with
      the last user. */
  lemma LeaveRemoves(p: Pool, key: string, user: int)
    requires Waits(p, key, user)
    ensures var q := Removed(p, key, user);
            && (forall k, u :: Waits(q, k, u) <==> Waits(p, k, u) && !(k == key && u == user))
            && (forall k :: k != key ==> (k in q.metadata <==> k in p.metadata))
            && (forall k :: k in q.metadata ==> k in p.metadata && q.metadata[k] == p.metadata[k])
            && (if exists u :: u != user && Waits(p, key, u)
                then key in q.entries && (key in p.metadata ==> key in q.metadata)
                else key !in q.entries && key !in q.metadata)
  {
    var q := Removed(p, key, user);
    var rest := Users(p, key) - {user};
    if u :| u != user && Waits(p, key, u) { assert u in rest; }
    if rest != {} {
      var u := SomeElement(rest);
      assert u != user && Waits(p, key, u);
    }
  }

  lemma SomeElement<T>(s: set<T>) returns (x: T)
    requires s != {}
    ensures x in s
  {
    x :| x in s;
  }

  /** Clearing keys: nobody waits under them any more, everybody else does, and a record goes exactly
      if somebody waited under its key. */
  lemma ClearRemoves(p: Pool, keys: set<string>)
    ensures forall u :: u in Members(p, keys) <==> exists k :: k in keys && Waits(p, k, u)
    ensures var q := Cleared(p, InUse(p, keys));
            && (forall k, u :: Waits(q, k, u) <==> Waits(p, k, u) && k !in keys)
            && (forall k :: k in q.metadata <==> k in p.metadata && !(k in keys && exists u :: Waits(p, k, u)))
            && (forall k :: k in q.metadata ==> q.metadata[k] == p.metadata[k])
  {
    forall u | u in Members(p, keys) ensures exists k :: k in keys && Waits(p, k, u) {
      var k :| k in keys && u in Users(p, k);
      assert Waits(p, k, u);
    }
    forall u, k | k in keys && Waits(p, k, u) ensures u in Members(p, keys) {
      assert k in keys && u in Users(p, k);
    }
    forall k ensures Users(p, k) != {} <==> exists u :: Waits(p, k, u) {
      if Users(p, k) != {} {
        var u := SomeElement(Users(p, k));
        assert Waits(p, k, u);
      }
      if u :| Waits(p, k, u) { assert u in Users(p, k); }
    }
  }

  lemma SeasonKeysApart(tmdbId: int, s: int, t: int)
    requires 0 < tmdbId <= INT64_MAX && 0 <= s <= INT64_MAX && 0 <= t <= INT64_MAX && s != t
    ensures Key(tmdbId, "tv", s) != Key(tmdbId, "tv", t)
  {
    hide Key;
    KeysInjective(tmdbId, "tv", s, tmdbId, "tv", t);
  }

  /** The arrival of a season: exactly the users under the season and under any season are returned,
      and exactly those two are emptied; every other season keeps its users. */
  lemma SeasonArrives(p: Pool, tmdbId: int, season: int)
    requires 0 < tmdbId <= INT64_MAX && 0 < season <= INT64_MAX
    ensures var keys := ArrivalKeys(tmdbId, "tv", season);
            var q := Cleared(p, InUse(p, keys));
            && (forall u :: u in Members(p, keys) <==>
                  Waits(p, Key(tmdbId, "tv", season), u) || Waits(p, Key(tmdbId, "tv", 0), u))
            && (forall k, u :: Waits(q, k, u) <==>
                  Waits(p, k, u) && k != Key(tmdbId, "tv", season) && k != Key(tmdbId, "tv", 0))
            && (forall t, u :: 0 < t <= INT64_MAX && t != season ==>
                  (Waits(q, Key(tmdbId, "tv", t), u) <==> Waits(p, Key(tmdbId, "tv", t), u)))
  {
    hide Key, Members, InUse, Cleared, Waits;
    var keys := ArrivalKeys(tmdbId, "tv", season);
    assert forall k :: k in keys <==> k == Key(tmdbId, "tv", season) || k == Key(tmdbId, "tv", 0);
    ClearRemoves(p, keys);
    forall u ensures u in Members(p, keys) <==>
                       Waits(p, Key(tmdbId, "tv", season), u) || Waits(p, Key(tmdbId, "tv", 0), u) {
      assert Key(tmdbId, "tv", season) in keys && Key(tmdbId, "tv", 0) in keys;
    }
    forall t | 0 < t <= INT64_MAX && t != season
      ensures Key(tmdbId, "tv", t) != Key(tmdbId, "tv", season) && Key(tmdbId, "tv", t) != Key(tmdbId, "tv", 0)
    {
      SeasonKeysApart(tmdbId, t, season);
      SeasonKeysApart(tmdbId, t, 0);
    }
  }

  /** An arrival without a season, or of anything but a show: exactly the one key without a season. */
  lemma TitleArrives(p: Pool, tmdbId: int, mediaType: string, season: int)
    requires mediaType != "tv" || season <= 0
    ensures var keys := ArrivalKeys(tmdbId, mediaType, season);
            var q := Cleared(p, InUse(p, keys));
            && (forall u :: u in Members(p, keys) <==> Waits(p, Key(tmdbId, mediaType, 0), u))
            && (forall k, u :: Waits(q, k, u) <==> Waits(p, k, u) && k != Key(tmdbId, mediaType, 0))
  {
    hide Key, Members, InUse, Cleared, Waits;
    var keys := ArrivalKeys(tmdbId, mediaType, season);
    assert keys == {Key(tmdbId, mediaType, 0)};
    ClearRemoves(p, keys);
  }

  /** Which keys are of a title. */
  lemma KeyOfTitle(id: int, mt: string, season: int, tmdbId: int, mediaType: string)
    requires 0 < id <= INT64_MAX && InInt64(season) && Free(mt, ':')
    ensures OfTitle(tmdbId, mediaType)(Key(id, mt, season))
            <==> id == tmdbId && mediaType == if mt == "" then "movie" else mt
  {
    hide Key, Parse;
    ParsesBack(id, mt, season);
  }

  /** The cancellation of a whole title: everybody who waits for any season of it is returned, all its
      keys are emptied, and no key of another title. */
  lemma TitleCancelled(p: Pool, tmdbId: int, mediaType: string)
    requires 0 < tmdbId <= INT64_MAX && Free(mediaType, ':') && mediaType != ""
    ensures var keys := CancelKeys(p, tmdbId, mediaType, 0);
            var q := Cleared(p, InUse(p, keys));
            && (forall s, u :: InInt64(s) && Waits(p, Key(tmdbId, mediaType, s), u) ==> u in Members(p, keys))
            && (forall s, u :: InInt64(s) ==> !Waits(q, Key(tmdbId, mediaType, s), u))
            && (forall id, mt, s, u ::
                  (0 < id <= INT64_MAX && InInt64(s) && Free(mt, ':')
                   && !(id == tmdbId && mediaType == if mt == "" then "movie" else mt)) ==>
                  (Waits(q, Key(id, mt, s), u) <==> Waits(p, Key(id, mt, s), u)))
  {
    hide Key, Members, InUse, Cleared, OfTitle;
    var keys := CancelKeys(p, tmdbId, mediaType, 0);
    ClearRemoves(p, keys);
    forall id, mt, s | 0 < id <= INT64_MAX && InInt64(s) && Free(mt, ':')
      ensures Key(id, mt, s) in keys
              <==> Key(id, mt, s) in p.entries && id == tmdbId && mediaType == if mt == "" then "movie" else mt
    {
      KeyOfTitle(id, mt, s, tmdbId, mediaType);
    }
  }

  /** The cancellation of one season is its arrival. */
  lemma SeasonCancelled(p: Pool, tmdbId: int, season: int)
    requires season > 0
    ensures CancelKeys(p, tmdbId, "tv", season) == {Key(tmdbId, "tv", season), Key(tmdbId, "tv", 0)}
  {
  }

  // ---- What a restart preserves ----

  /** The users listed under the keys that satisfy `match_`. */
  function ListedWhere<K>(f: map<K, seq<int>>, match_: K -> bool): set<int> {
    set k, u | k in f && match_(k) && u in f[k] :: u
  }

  /** Filing under other names of the same kind loses and adds nobody of that kind. */
  lemma MergedWhere<K>(f: map<K, seq<int>>, name: K -> K, match_: K -> bool)
    requires forall k :: k in f ==> match_(name(k)) == match_(k)
    ensures (set n, u | n in MergedBy(f, name) && match_(n) && u in MergedBy(f, name)[n] :: u) == ListedWhere(f, match_)
  {
    forall u | u in ListedWhere(f, match_)
      ensures exists n :: n in MergedBy(f, name) && match_(n) && u in MergedBy(f, name)[n]
    {
      var k :| k in f && match_(k) && u in f[k];
      assert name(k) in MergedBy(f, name) && u in MergedBy(f, name)[name(k)];
    }
  }

  lemma OfTitleLoadKey(key: string, tmdbId: int, mediaType: string)
    ensures OfTitle(tmdbId, mediaType)(LoadKey(key)) == OfTitle(tmdbId, mediaType)(key)
  {
    LoadKeyTitle(key);
  }

  lemma MembersMatching(p: Pool, match_: string -> bool)
    ensures Members(p, Matching(p.entries.Keys, match_))
            == set k, u | k in p.entries && match_(k) && u in p.entries[k] :: u
  {
    forall u, k | k in p.entries && match_(k) && u in p.entries[k]
      ensures u in Members(p, Matching(p.entries.Keys, match_))
    {
      assert k in Matching(p.entries.Keys, match_) && u in Users(p, k);
    }
  }

  lemma RecordedWhere(f: Snapshot, p: Pool, match_: string -> bool)
    requires Records(f, p)
    ensures (set k, u | k in p.entries && match_(k) && u in p.entries[k] :: u) == ListedWhere(f.entries, match_)
  {
    forall u, k | k in p.entries && match_(k) && u in p.entries[k] ensures u in ListedWhere(f.entries, match_) {
      assert u in Elements(f.entries[k]);
    }
    forall u | u in ListedWhere(f.entries, match_)
      ensures exists k :: k in p.entries && match_(k) && u in p.entries[k]
    {
      var k :| k in f.entries && match_(k) && u in f.entries[k];
      assert u in Elements(f.entries[k]);
    }
  }

  /** Saving and loading again keeps everybody who waits for a title. */
  lemma ReloadKeepsTitles(f: Snapshot, p: Pool, q: Pool, tmdbId: int, mediaType: string)
    requires Records(f, p) && q.entries == Merged(f.entries)
    ensures Members(q, TitleKeys(q, tmdbId, mediaType)) == Members(p, TitleKeys(p, tmdbId, mediaType))
  {
    hide LoadKey, OfTitle, Members, Records;
    var match_ := OfTitle(tmdbId, mediaType);
    forall k | k in f.entries ensures match_(LoadKey(k)) == match_(k) { OfTitleLoadKey(k, tmdbId, mediaType); }
    MergedWhere(f.entries, LoadKey, match_);
    MembersMatching(p, match_);
    MembersMatching(q, match_);
    RecordedWhere(f, p, match_);
  }

  /** But a show's seasons are forgotten: every show key that is loaded is the any-season key, so
      nobody waits for a season any more, and everybody waits for any season. */
  lemma ReloadForgetsSeasons(f: Snapshot, p: Pool, q: Pool, tmdbId: int, season: int)
    requires Records(f, p) && q.entries == Merged(f.entries)
    requires 0 < tmdbId <= INT64_MAX && 0 < season <= INT64_MAX
    ensures Users(q, Key(tmdbId, "tv", season)) == {}
    ensures Users(q, Key(tmdbId, "tv", 0)) == Members(p, TitleKeys(p, tmdbId, "tv"))
  {
    RoundTrip(tmdbId, "tv", season);
    RoundTrip(tmdbId, "tv", 0);
    var any := Key(tmdbId, "tv", 0);
    forall k | k in q.entries ensures LoadKey(k) == k {
      var j :| j in f.entries && LoadKey(j) == k;
      LoadKeyTitle(j);
    }
    LoadKeyTitle(Key(tmdbId, "tv", season));
    ReloadKeepsTitles(f, p, q, tmdbId, "tv");
    forall k | k in TitleKeys(q, tmdbId, "tv") ensures k == any { assert LoadKey(k) == k; }
    OnlyKey(q, TitleKeys(q, tmdbId, "tv"), any);
  }

  /** So who waited for two seasons of a show counted twice before the restart and counts once
      after it: the total is kept exactly if there was nobody like that. */
  lemma ReloadCountsOnce(f: Snapshot, p: Pool, q: Pool, tmdbId: int)
    requires Records(f, p) && q.entries == Merged(f.entries)
    ensures var before, after := TitleKeys(p, tmdbId, "tv"), TitleKeys(q, tmdbId, "tv");
            && |Seats(q, after)| == |Members(p, before)|
            && (|Seats(q, after)| == |Seats(p, before)| <==> Apart(p, before))
  {
    hide Users, Seats, Members, Records;
    ReloadKeepsTitles(f, p, q, tmdbId, "tv");
    forall k | k in TitleKeys(q, tmdbId, "tv") ensures k == Key(tmdbId, "tv", 0) {
      var j :| j in f.entries && LoadKey(j) == k;
      LoadKeyTitle(j);
    }
    MembersSize(q, TitleKeys(q, tmdbId, "tv"));
    MembersSize(p, TitleKeys(p, tmdbId, "tv"));
  }

  lemma OnlyKey(p: Pool, keys: set<string>, key: string)
    requires forall k :: k in keys ==> k == key
    requires key in p.entries ==> key in keys
    ensures Members(p, keys) == Users(p, key)
  {
    forall u | u in Users(p, key) ensures u in Members(p, keys) { assert key in keys && u in Users(p, key); }
  }

  lemma ListedOwn<K>(f: map<K, seq<int>>, name: K -> K, k: K)
    requires k in f && forall j :: j in f ==> name(j) == j
    ensures ListedAs(f, name, k) == Elements(f[k])
  {
    forall u | u in Elements(f[k]) ensures u in ListedAs(f, name, k) { assert name(k) == k && u in f[k]; }
  }

  /** Loading gives back the saved lists exactly if no show key of a season was among them; what
      has been loaded once is stable. */
  lemma ReloadIdentity(f: Snapshot, p: Pool, q: Pool)
    requires Records(f, p) && q.entries == Merged(f.entries)
    ensures q.entries == p.entries <==> forall k :: k in p.entries ==> LoadKey(k) == k
    ensures forall k :: k in q.entries ==> LoadKey(k) == k
  {
    forall k | k in q.entries ensures LoadKey(k) == k {
      var j :| j in f.entries && LoadKey(j) == k;
      LoadKeyTitle(j);
    }
    if forall k :: k in p.entries ==> LoadKey(k) == k {
      assert q.entries.Keys == p.entries.Keys by {
        forall k | k in p.entries ensures k in q.entries { assert LoadKey(k) == k && k in f.entries; }
      }
      forall k | k in p.entries ensures q.entries[k] == p.entries[k] {
        ListedOwn(f.entries, LoadKey, k);
      }
    }
  }

  /** Every key of the pool is the key of some title, as the service writes them. */
  ghost predicate OfTitles(p: Pool) {
    forall k :: k in p.entries ==> IsTitleKey(k)
  }

  ghost predicate IsTitleKey(k: string) {
    exists id, mt, s :: InInt64(id) && InInt64(s) && k == Key(id, mt, s)
  }

  /** So of a pool that the service has built, a restart gives back the user lists exactly if nobody
      waits for a season of a show. */
  lemma ReloadByTitles(f: Snapshot, p: Pool, q: Pool)
    requires Records(f, p) && q.entries == Merged(f.entries) && OfTitles(p)
    ensures q.entries == p.entries
            <==> forall id, s :: 0 < id <= INT64_MAX && 0 < s <= INT64_MAX ==> Key(id, "tv", s) !in p.entries
  {
    hide Key, LoadKey, Records, Merged;
    ReloadIdentity(f, p, q);
    if q.entries == p.entries {
      forall id, s | 0 < id <= INT64_MAX && 0 < s <= INT64_MAX ensures Key(id, "tv", s) !in p.entries {
        LoadKeyOfTitle(id, "tv", s);
      }
    }
    if forall id, s :: 0 < id <= INT64_MAX && 0 < s <= INT64_MAX ==> Key(id, "tv", s) !in p.entries {
      forall k | k in p.entries ensures LoadKey(k) == k {
        var id, mt, s :| InInt64(id) && InInt64(s) && k == Key(id, mt, s);
        LoadKeyOfTitle(id, mt, s);
      }
    }
  }

  /** Joining, leaving, clearing and reloading leave it at that. */
  lemma OfTitlesStep(p: Pool, op: Op)
    requires OfTitles(p) && (op.Join? ==> IsTitleKey(op.key))
    ensures OfTitles(Entries(p, op))
  {
    hide IsTitleKey, LoadKey;
    if op.Reload? {
      forall n | n in Entries(p, op).entries ensures IsTitleKey(n) {
        var k :| k in p.entries && LoadKey(k) == n;
        LoadKeyIsTitle(k);
      }
    }
  }

  /** The pool after a run of operations. */
  function PoolAfter(p: Pool, ops: seq<Op>): Pool
    decreases |ops|
  {
    if ops == [] then p else PoolAfter(Entries(p, ops[0]), ops[1..])
  }

  lemma {:induction false} OfTitlesRun(p: Pool, ops: seq<Op>)
    requires OfTitles(p) && forall i :: 0 <= i < |ops| && ops[i].Join? ==> IsTitleKey(ops[i].key)
    ensures OfTitles(PoolAfter(p, ops))
    decreases |ops|
  {
    hide OfTitles, IsTitleKey, Entries;
    if ops != [] {
      OfTitlesStep(p, ops[0]);
      OfTitlesRun(Entries(p, ops[0]), ops[1..]);
    }
  }

  /** So of every pool that the service can build, reloads included. */
  lemma ReloadAfterRun(ops: seq<Op>, f: Snapshot, p: Pool, q: Pool)
    requires forall i :: 0 <= i < |ops| && ops[i].Join? ==> IsTitleKey(ops[i].key)
    requires p.entries == PoolAfter(Pool(map[], map[]), ops).entries
    requires Records(f, p) && q.entries == Merged(f.entries)
    ensures q.entries == p.entries
            <==> forall id, s :: 0 < id <= INT64_MAX && 0 < s <= INT64_MAX ==> Key(id, "tv", s) !in p.entries
  {
    hide Key, Merged, Records, PoolAfter;
    OfTitlesRun(Pool(map[], map[]), ops);
    ReloadByTitles(f, p, q);
  }

  lemma LoadKeyIsTitle(k: string)
    requires IsTitleKey(k)
    ensures IsTitleKey(LoadKey(k))
  {
    hide Key;
    if Parse(k).Some? {
      ParseRange(k);
      assert InInt64(Parse(k).value.tmdbId) && InInt64(0);
    }
  }

  lemma PickDiffers<K(!new)>(f: map<K, Meta>, name: K -> K, j: K, k: K) returns (m: map<K, Meta>, n: map<K, Meta>)
    requires j in f && k in f && name(j) == name(k) && f[j] != f[k]
    ensures PickedBy(m, f, name) && PickedBy(n, f, name) && m != n
  {
    var any := AnyMetadata(f, name);
    PickOther(any, f, name, j);
    PickOther(any, f, name, k);
    m, n := any[name(j) := f[j]], any[name(k) := f[k]];
    assert m[name(j)] != n[name(j)];
  }

  lemma DifferentPicks<K>(f: map<K, Meta>, name: K -> K, m: map<K, Meta>, n: map<K, Meta>) returns (j: K, k: K)
    requires PickedBy(m, f, name) && PickedBy(n, f, name) && m != n
    ensures j in f && k in f && name(j) == name(k) && f[j] != f[k]
  {
    var x :| x in m && m[x] != n[x];
    j :| j in f && name(j) == x && f[j] == m[x];
    k :| k in f && name(k) == x && f[k] == n[x];
  }

  /** The metadata that `load` keeps depends on the order of the map exactly if two keys that are
      filed together have different records. */
  lemma MetadataOrder(f: map<string, Meta>)
    ensures (exists m, n :: MetaLoads(m, f) && MetaLoads(n, f) && m != n)
            <==> exists j, k :: j in f && k in f && LoadKey(j) == LoadKey(k) && f[j] != f[k]
  {
    hide LoadKey, PickedBy;
    if m, n :| MetaLoads(m, f) && MetaLoads(n, f) && m != n {
      var j, k := DifferentPicks(f, LoadKey, m, n);
    }
    if j, k :| j in f && k in f && LoadKey(j) == LoadKey(k) && f[j] != f[k] {
      var m, n := PickDiffers(f, LoadKey, j, k);
      assert MetaLoads(m, f) && MetaLoads(n, f);
    }
  }

  lemma PickOther<K>(m: map<K, Meta>, f: map<K, Meta>, name: K -> K, j: K)
    requires PickedBy(m, f, name) && j in f
    ensures PickedBy(m[name(j) := f[j]], f, name)
  {
    var m' := m[name(j) := f[j]];
    assert name(j) in Renamed(f.Keys, name);
    forall n | n in m' ensures exists k :: k in f && name(k) == n && f[k] == m'[n] {
      if n != name(j) { assert m'[n] == m[n]; }
    }
  }

  ghost function AnyMetadata<K(!new)>(f: map<K, Meta>, name: K -> K): (m: map<K, Meta>)
    ensures PickedBy(m, f, name)
  {
    map n | n in Renamed(f.Keys, name) :: var k :| k in f && name(k) == n; f[k]
  }

  // ---- Nobody is told twice ----

  /** The effect of one operation on the user lists, saves that failed left out. */
  datatype Op =
    | Join(key: string, user: int)
    | Leave(key: string, user: int)
    | Clear(keys: set<string>)
    | Reload

  function Entries(p: Pool, op: Op): Pool {
    match op
    case Join(key, user) => Added(p, key, user, Meta("", "", "", None))
    case Leave(key, user) => if user in Users(p, key) then Removed(p, key, user) else p
    case Clear(keys) => Cleared(p, InUse(p, keys))
    case Reload => Pool(map n | n in Renamed(p.entries.Keys, LoadKey) :: GatheredAs(p, n), p.metadata)
  }

  function GatheredAs(p: Pool, n: string): set<int> {
    set k, u | k in p.entries && LoadKey(k) == n && u in p.entries[k] :: u
  }

  /** `Reload` is what a restart from a file that records the pool loads. */
  lemma ReloadIsLoad(f: Snapshot, p: Pool)
    requires Records(f, p)
    ensures Merged(f.entries) == Entries(p, Reload).entries
  {
    forall n | n in Merged(f.entries) ensures ListedAs(f.entries, LoadKey, n) == GatheredAs(p, n) {
      forall u | u in GatheredAs(p, n) ensures u in ListedAs(f.entries, LoadKey, n) {
        var k :| k in p.entries && LoadKey(k) == n && u in p.entries[k];
        assert u in Elements(f.entries[k]);
      }
      forall u | u in ListedAs(f.entries, LoadKey, n) ensures u in GatheredAs(p, n) {
        var k :| k in f.entries && LoadKey(k) == n && u in f.entries[k];
        assert u in Elements(f.entries[k]);
      }
    }
  }

  /** The keys under which a user waits. */
  function Places(p: Pool, user: int): set<string> {
    set k | k in p.entries && user in p.entries[k]
  }

  function Returned(p: Pool, ops: seq<Op>, user: int): nat
    decreases |ops|
  {
    if ops == [] then 0
    else (if ops[0].Clear? && user in Members(p, ops[0].keys) then 1 else 0)
         + Returned(Entries(p, ops[0]), ops[1..], user)
  }

  function Joined(p: Pool, ops: seq<Op>, user: int): nat
    decreases |ops|
  {
    if ops == [] then 0
    else (if ops[0].Join? && ops[0].user == user && user !in Users(p, ops[0].key) then 1 else 0)
         + Joined(Entries(p, ops[0]), ops[1..], user)
  }

  lemma {:induction false} SubsetSize<T>(a: set<T>, b: set<T>)
    requires a <= b
    ensures |a| <= |b| && (a != b ==> |a| < |b|)
  {
    if x :| x in a { SubsetSize(a - {x}, b - {x}); }
  }

  lemma {:induction false} ImageSize<K>(a: set<K>, name: K -> K)
    ensures |Renamed(a, name)| <= |a|
  {
    if x :| x in a {
      ImageSize(a - {x}, name);
      assert Renamed(a, name) == Renamed(a - {x}, name) + {name(x)};
    }
  }

  lemma PlacesClear(p: Pool, keys: set<string>, user: int)
    ensures |Places(Entries(p, Clear(keys)), user)| + (if user in Members(p, keys) then 1 else 0) <= |Places(p, user)|
  {
    var q := Entries(p, Clear(keys));
    SubsetSize(Places(q, user), Places(p, user));
    if user in Members(p, keys) {
      var k :| k in keys && user in Users(p, k);
      assert k in Places(p, user) && k !in Places(q, user);
    }
  }

  lemma PlacesReload(p: Pool, user: int)
    ensures |Places(Entries(p, Reload), user)| <= |Places(p, user)|
  {
    hide LoadKey;
    var q := Entries(p, Reload);
    forall n | n in Places(q, user) ensures n in Renamed(Places(p, user), LoadKey) {
      var k :| k in p.entries && LoadKey(k) == n && user in p.entries[k];
      assert k in Places(p, user);
    }
    SubsetSize(Places(q, user), Renamed(Places(p, user), LoadKey));
    ImageSize(Places(p, user), LoadKey);
  }

  lemma PlacesJoin(p: Pool, key: string, u: int, user: int)
    ensures |Places(Entries(p, Join(key, u)), user)|
            <= |Places(p, user)| + (if u == user && user !in Users(p, key) then 1 else 0)
  {
    var q := Entries(p, Join(key, u));
    assert Places(q, user) == Places(p, user) + (if u == user then {key} else {});
    assert user in Users(p, key) ==> key in Places(p, user);
  }

  lemma PlacesLeave(p: Pool, key: string, u: int, user: int)
    ensures |Places(Entries(p, Leave(key, u)), user)| <= |Places(p, user)|
  {
    SubsetSize(Places(Entries(p, Leave(key, u)), user), Places(p, user));
  }

  lemma PlacesStep(p: Pool, op: Op, user: int)
    ensures var q := Entries(p, op);
            |Places(q, user)| + (if op.Clear? && user in Members(p, op.keys) then 1 else 0)
            <= |Places(p, user)| + (if op.Join? && op.user == user && user !in Users(p, op.key) then 1 else 0)
  {
    hide Entries, Places, Members, Users;
    match op {
      case Join(key, u) => PlacesJoin(p, key, u, user);
      case Leave(key, u) => PlacesLeave(p, key, u, user);
      case Clear(keys) => PlacesClear(p, keys, user);
      case Reload => PlacesReload(p, user);
    }
  }

  /** Over any run, reloads included, a user is returned by clears no more often than newly added,
      counting the places held at the start. */
  lemma {:induction false} ReturnedAtMostJoined(p: Pool, ops: seq<Op>, user: int)
    ensures Returned(p, ops, user) <= |Places(p, user)| + Joined(p, ops, user)
    decreases |ops|
  {
    if ops != [] {
      PlacesStep(p, ops[0], user);
      ReturnedAtMostJoined(Entries(p, ops[0]), ops[1..], user);
    }
  }
}

/** The size-bounded image cache: `Cleanup` (internal/services/image_cache.go, lines 416-475). */
module ImageCache {
  import opened Tally
  import opened Sorting

  /** An entry of the cache directory; `readable` tells whether its file information can be read,
      `removable` whether removing it succeeds. */
  datatype File = File(name: string, isDir: bool, readable: bool, removable: bool, size: nat, modTime: int)

  predicate Expired(f: File, now: int, maxAge: int) { now - f.modTime > maxAge }

  predicate Counted(f: File, now: int, maxAge: int) {
    !f.isDir && f.readable && !Expired(f, now, maxAge)
  }

  function SizeOf(f: File): nat { f.size }

  function Total(files: seq<File>): nat { Sum(files, SizeOf) }

  /** The files that the first pass keeps track of, and those it leaves in the directory. */
  function Tracked(files: seq<File>, now: int, maxAge: int): seq<File> {
    if files == [] then []
    else Tracked(files[..|files|-1], now, maxAge)
         + if Counted(files[|files|-1], now, maxAge) then [files[|files|-1]] else []
  }

  predicate Dropped(f: File, now: int, maxAge: int) {
    !f.isDir && f.readable && Expired(f, now, maxAge) && f.removable
  }

  function AgeOf(f: File): int { f.modTime }

  predicate OldestFirst(files: seq<File>) { Ordered(files, AgeOf) }

  /** The removable files among the first `k`. */
  function RemovedSize(f: File): nat { if f.removable then f.size else 0 }

  function SizeAfter(sorted: seq<File>, k: nat): int
    requires k <= |sorted|
  {
    Total(sorted) - Sum(sorted[..k], RemovedSize)
  }

  /** How far the second pass goes: to the first position where the rest fits, or to the end. */
  ghost predicate StopsAt(sorted: seq<File>, maxSize: int, k: nat) {
    && k <= |sorted|
    && (forall j :: 0 <= j < k ==> SizeAfter(sorted, j) > maxSize)
    && (k == |sorted| || SizeAfter(sorted, k) <= maxSize)
  }

  // ---- The code ----

  class Directory {
    var files: seq<File>

    constructor (files: seq<File>)
      ensures this.files == files
    {
      this.files := files;
    }

    method Remove(f: File) returns (ok: bool)
      modifies this
      ensures ok == f.removable
      ensures files == if ok then Without(old(files), {f}) else old(files)
    {
      ok := f.removable;
      if ok { files := Without(files, {f}); }
    }
  }

  function Without(files: seq<File>, gone: set<File>): seq<File> {
    if files == [] then []
    else Without(files[..|files|-1], gone) + if files[|files|-1] in gone then [] else [files[|files|-1]]
  }

  lemma {:induction false} WithoutTwice(files: seq<File>, a: set<File>, b: set<File>)
    ensures Without(Without(files, a), b) == Without(files, a + b)
  {
    if files != [] {
      var n := |files| - 1;
      WithoutTwice(files[..n], a, b);
      WithoutAppend(Without(files[..n], a), files[n], b);
      assert files[n] in a ==> Without(files, a) == Without(files[..n], a);
    }
  }

  lemma WithoutAppend(files: seq<File>, f: File, gone: set<File>)
    ensures Without(files + [f], gone) == Without(files, gone) + if f in gone then [] else [f]
  {
    assert (files + [f])[..|files|] == files;
  }

  lemma {:induction false} WithoutNothing(files: seq<File>)
    ensures Without(files, {}) == files
  {
    if files != [] { WithoutNothing(files[..|files|-1]); }
  }

  function DroppedAmong(files: seq<File>, now: int, maxAge: int): set<File> {
    set f | f in files && Dropped(f, now, maxAge)
  }

  lemma OneMoreFile(files: seq<File>, i: nat, now: int, maxAge: int)
    requires i < |files|
    ensures var f := files[i];
            && Tracked(files[..i+1], now, maxAge)
               == Tracked(files[..i], now, maxAge) + (if Counted(f, now, maxAge) then [f] else [])
            && DroppedAmong(files[..i+1], now, maxAge)
               == DroppedAmong(files[..i], now, maxAge) + (if Dropped(f, now, maxAge) then {f} else {})
  {
    assert files[..i+1] == files[..i] + [files[i]] && files[..i+1][..i] == files[..i];
  }

  /** The first pass. */
  method DropExpired(dir: Directory, now: int, maxAge: int) returns (allFiles: seq<File>, totalSize: nat)
    modifies dir
    ensures allFiles == Tracked(old(dir.files), now, maxAge) && totalSize == Total(allFiles)
    ensures dir.files == Without(old(dir.files), DroppedAmong(old(dir.files), now, maxAge))
  {
    var listing := dir.files;
    allFiles, totalSize := [], 0;
    ghost var gone: set<File> := {};
    hide Without;
    WithoutNothing(listing);
    for i := 0 to |listing|
      invariant allFiles == Tracked(listing[..i], now, maxAge) && totalSize == Total(allFiles)
      invariant gone == DroppedAmong(listing[..i], now, maxAge)
      invariant dir.files == Without(listing, gone)
    {
      var file := listing[i];
      OneMoreFile(listing, i, now, maxAge);
      if file.isDir { continue; }
      if !file.readable { continue; }
      if now - file.modTime > maxAge {
        var ok := dir.Remove(file);
        if ok {
          WithoutTwice(listing, gone, {file});
          gone := gone + {file};
        }
        continue;
      }
      SumAppend(allFiles, SizeOf, file);
      allFiles := allFiles + [file];
      totalSize := totalSize + file.size;
    }
    assert listing[..|listing|] == listing;
  }

  /** The second pass over the tracked files, oldest first; `k` is where it stops. */
  method EvictOldest(dir: Directory, sorted: seq<File>, total: nat, maxSize: int) returns (totalSize: int, ghost k: nat)
    requires total == Total(sorted)
    modifies dir
    ensures StopsAt(sorted, maxSize, k) && totalSize == SizeAfter(sorted, k)
    ensures dir.files == Without(old(dir.files), set f | f in sorted[..k] && f.removable)
  {
    hide Without;
    totalSize, k := total, 0;
    ghost var gone: set<File> := {};
    WithoutNothing(dir.files);
    for i := 0 to |sorted|
      invariant k == i && totalSize == SizeAfter(sorted, i)
      invariant forall j :: 0 <= j < i ==> SizeAfter(sorted, j) > maxSize
      invariant gone == set f | f in sorted[..i] && f.removable
      invariant dir.files == Without(old(dir.files), gone)
    {
      if totalSize <= maxSize { break; }
      var fi := sorted[i];
      assert sorted[..i+1] == sorted[..i] + [fi];
      SumAppend(sorted[..i], RemovedSize, fi);
      var ok := dir.Remove(fi);
      if ok {
        totalSize := totalSize - fi.size;
        WithoutTwice(old(dir.files), gone, {fi});
        gone := gone + {fi};
      }
      k := i + 1;
    }
  }

  /** `sorted` and `k` show what was done: nothing more than dropping expired files if the rest fits
      or is a lone file, otherwise also dropping the first `k` of the rest, oldest first. */
  method Cleanup(dir: Directory, now: int, maxAge: int, maxSize: int)
    returns (totalSize: int, ghost sorted: seq<File>, ghost k: nat)
    modifies dir
    ensures var before := old(dir.files);
            var tracked := Tracked(before, now, maxAge);
            && multiset(sorted) == multiset(tracked) && OldestFirst(sorted) && k <= |sorted|
            && totalSize == SizeAfter(sorted, k)
            && (if Total(tracked) > maxSize && |tracked| > 1 then StopsAt(sorted, maxSize, k) else k == 0)
            && dir.files == Without(before, DroppedAmong(before, now, maxAge)
                                            + set f | f in sorted[..k] && f.removable)
  {
    var allFiles, total := DropExpired(dir, now, maxAge);
    ghost var gone := DroppedAmong(old(dir.files), now, maxAge);
    var byAge := SortBy(allFiles, AgeOf);
    sorted, totalSize, k := byAge, total, 0;
    SumPermutation(allFiles, byAge, SizeOf);
    if total > maxSize && |allFiles| > 1 {
      totalSize, k := EvictOldest(dir, byAge, total, maxSize);
      WithoutTwice(old(dir.files), gone, set f | f in sorted[..k] && f.removable);
    } else {
      assert (set f | f in sorted[..0] && f.removable) == {};
      assert gone + {} == gone;
    }
  }

  /** The size of files is the sum of their sizes. */
  lemma TotalSize(files: seq<File>, f: File)
    ensures Total([]) == 0 && Total(files + [f]) == Total(files) + f.size
  {
    SumAppend(files, SizeOf, f);
  }

  /** What the first pass keeps track of, file by file: what is not older than `maxAge`. */
  lemma FirstPassTracks(files: seq<File>, now: int, maxAge: int, f: File)
    ensures multiset(Tracked(files, now, maxAge))[f]
            == if !f.isDir && f.readable && now - f.modTime <= maxAge then multiset(files)[f] else 0
  {
    TrackedCount(files, now, maxAge, f);
  }

  lemma {:induction false} TrackedCount(files: seq<File>, now: int, maxAge: int, f: File)
    ensures multiset(Tracked(files, now, maxAge))[f] == if Counted(f, now, maxAge) then multiset(files)[f] else 0
  {
    hide Counted;
    if files != [] {
      var n := |files| - 1;
      TrackedCount(files[..n], now, maxAge, f);
      CountLast(files, f);
      CountIf(Tracked(files[..n], now, maxAge), files[n], Counted(files[n], now, maxAge), f);
    }
  }

  /** What it removes: whatever is older, if it can. */
  lemma FirstPassRemoves(files: seq<File>, now: int, maxAge: int, f: File)
    ensures f in DroppedAmong(files, now, maxAge)
            <==> f in files && !f.isDir && f.readable && f.removable && now - f.modTime > maxAge
  {
  }

  /** The second pass never removes a file and goes on to an older one. */
  lemma OldestGoFirst(sorted: seq<File>, k: nat)
    requires OldestFirst(sorted) && k <= |sorted|
    ensures forall f, g :: f in sorted[..k] && g in sorted[k..] ==> f.modTime <= g.modTime
  {
    forall f, g | f in sorted[..k] && g in sorted[k..] ensures f.modTime <= g.modTime {
      var i :| 0 <= i < k && sorted[..k][i] == f;
      var j :| 0 <= j < |sorted| - k && sorted[k..][j] == g;
      assert AgeOf(sorted[i]) <= AgeOf(sorted[k + j]);
    }
  }

  // ---- What it leaves ----

  lemma {:induction false} AllRemoved(files: seq<File>)
    requires forall f :: f in files ==> f.removable
    ensures Sum(files, RemovedSize) == Total(files)
  {
    if files != [] {
      var n := |files| - 1;
      assert forall f :: f in files[..n] ==> f in files;
      AllRemoved(files[..n]);
    }
  }

  /** If every removal succeeds, the pass drops the shortest prefix, oldest first, after which the
      rest fits, and the tracked size is the size of that rest. */
  lemma ShortestPrefix(sorted: seq<File>, maxSize: int, k: nat)
    requires StopsAt(sorted, maxSize, k) && forall f :: f in sorted ==> f.removable
    ensures SizeAfter(sorted, k) == Total(sorted[k..])
    ensures forall j :: 0 <= j < k ==> Total(sorted[j..]) > maxSize
    ensures maxSize >= 0 ==> Total(sorted[k..]) <= maxSize
  {
    forall j | 0 <= j <= |sorted| ensures SizeAfter(sorted, j) == Total(sorted[j..]) {
      SumSplit(sorted, SizeOf, j);
      AllRemoved(sorted[..j]);
    }
  }

  // ---- The tracked size is what is there ----

  predicate Distinct(files: seq<File>) {
    forall i, j :: 0 <= i < j < |files| ==> files[i] != files[j]
  }

  lemma TrackedAppend(files: seq<File>, f: File, now: int, maxAge: int)
    ensures Tracked(files + [f], now, maxAge)
            == Tracked(files, now, maxAge) + if Counted(f, now, maxAge) then [f] else []
  {
    assert (files + [f])[..|files|] == files;
  }

  lemma {:induction false} TrackedWithout(files: seq<File>, now: int, maxAge: int, gone: set<File>)
    ensures Tracked(Without(files, gone), now, maxAge) == Without(Tracked(files, now, maxAge), gone)
  {
    hide Counted;
    if files != [] {
      var n := |files| - 1;
      var f := files[n];
      TrackedWithout(files[..n], now, maxAge, gone);
      WithoutAppend(Tracked(files[..n], now, maxAge), f, gone);
      TrackedAppend(Without(files[..n], gone), f, now, maxAge);
      assert f in gone ==> Without(files, gone) == Without(files[..n], gone);
      assert !Counted(f, now, maxAge) ==> Tracked(files, now, maxAge) == Tracked(files[..n], now, maxAge);
    }
  }

  lemma {:induction false} TrackedFacts(files: seq<File>, now: int, maxAge: int)
    ensures forall f :: f in Tracked(files, now, maxAge) ==> f in files && Counted(f, now, maxAge)
    ensures Distinct(files) ==> Distinct(Tracked(files, now, maxAge))
  {
    hide Counted;
    if files != [] {
      var n := |files| - 1;
      TrackedFacts(files[..n], now, maxAge);
      assert Distinct(files) ==> files[n] !in files[..n];
    }
  }

  lemma CountLast<T>(s: seq<T>, x: T)
    requires s != []
    ensures multiset(s)[x] == multiset(s[..|s|-1])[x] + if s[|s|-1] == x then 1 else 0
  {
    assert s == s[..|s|-1] + [s[|s|-1]];
  }

  lemma CountIf<T>(s: seq<T>, last: T, more: bool, x: T)
    ensures multiset(s + if more then [last] else [])[x] == multiset(s)[x] + if more && last == x then 1 else 0
  {
  }

  lemma {:induction false} WithoutCount(files: seq<File>, gone: set<File>, f: File)
    ensures multiset(Without(files, gone))[f] == if f in gone then 0 else multiset(files)[f]
  {
    if files != [] {
      var n := |files| - 1;
      WithoutCount(files[..n], gone, f);
      CountLast(files, f);
      CountIf(Without(files[..n], gone), files[n], files[n] !in gone, f);
      assert Without(files, gone) == Without(files[..n], gone) + if files[n] !in gone then [files[n]] else [];
    }
  }

  /** Dropping files that are not there changes nothing. */
  lemma {:induction false} WithoutStrangers(files: seq<File>, gone: set<File>)
    requires forall f :: f in files ==> f !in gone
    ensures Without(files, gone) == files
  {
    if files != [] {
      hide Without;
      var n := |files| - 1;
      forall f | f in files[..n] ensures f !in gone { assert f in files; }
      WithoutStrangers(files[..n], gone);
      assert files == files[..n] + [files[n]] && files[n] in files;
      WithoutAppend(files[..n], files[n], gone);
    }
  }

  lemma {:induction false} WithoutSize(files: seq<File>, gone: set<File>)
    requires forall f :: f in files ==> (f in gone <==> f.removable)
    ensures Total(Without(files, gone)) == Total(files) - Sum(files, RemovedSize)
  {
    if files != [] {
      var n := |files| - 1;
      assert forall f :: f in files[..n] ==> f in files;
      WithoutSize(files[..n], gone);
      SumAppend(Without(files[..n], gone), SizeOf, files[n]);
      assert files[n] in gone ==> Without(files, gone) == Without(files[..n], gone);
    }
  }

  lemma {:induction false} WithoutConcat(a: seq<File>, b: seq<File>, gone: set<File>)
    ensures Without(a + b, gone) == Without(a, gone) + Without(b, gone)
  {
    if b == [] {
      assert a + b == a && Without(a, gone) + [] == Without(a, gone);
    } else {
      hide Without;
      var n := |b| - 1;
      WithoutConcat(a, b[..n], gone);
      assert a + b == (a + b[..n]) + [b[n]] && b == b[..n] + [b[n]];
      WithoutAppend(a + b[..n], b[n], gone);
      WithoutAppend(b[..n], b[n], gone);
    }
  }

  lemma SizeAfterIsRest(sorted: seq<File>, k: nat, gone: set<File>)
    requires Distinct(sorted) && k <= |sorted| && gone == set f | f in sorted[..k] && f.removable
    ensures SizeAfter(sorted, k) == Total(Without(sorted, gone))
  {
    hide Without;
    var a, b := sorted[..k], sorted[k..];
    assert sorted == a + b;
    assert forall f :: f in b ==> f !in a;
    WithoutConcat(a, b, gone);
    WithoutStrangers(b, gone);
    WithoutSize(a, gone);
    SumSplit(sorted, SizeOf, k);
    var kept := Without(a, gone);
    SumSplit(kept + b, SizeOf, |kept|);
    assert (kept + b)[..|kept|] == kept && (kept + b)[|kept|..] == b;
  }

  /** Whatever removals fail: the size that `Cleanup` ends with is the total size of the unexpired
      files that are in the directory afterwards. */
  lemma TrackedSizeIsPresent(before: seq<File>, now: int, maxAge: int, sorted: seq<File>, k: nat, after: seq<File>)
    requires Distinct(before) && multiset(sorted) == multiset(Tracked(before, now, maxAge)) && k <= |sorted|
    requires after == Without(before, DroppedAmong(before, now, maxAge) + set f | f in sorted[..k] && f.removable)
    ensures SizeAfter(sorted, k) == Total(Tracked(after, now, maxAge))
  {
    var tracked, dropped := Tracked(before, now, maxAge), DroppedAmong(before, now, maxAge);
    var gone := set f | f in sorted[..k] && f.removable;
    TrackedFacts(before, now, maxAge);
    TrackedWithout(before, now, maxAge, dropped + gone);
    WithoutTwice(tracked, dropped, gone);
    WithoutStrangers(tracked, dropped);
    assert Tracked(after, now, maxAge) == Without(tracked, gone);
    DistinctPermutation(tracked, sorted);
    SizeAfterIsRest(sorted, k, gone);
    assert multiset(Without(tracked, gone)) == multiset(Without(sorted, gone)) by {
      forall f ensures multiset(Without(tracked, gone))[f] == multiset(Without(sorted, gone))[f] {
        WithoutCount(tracked, gone, f);
        WithoutCount(sorted, gone, f);
      }
    }
    SumPermutation(Without(tracked, gone), Without(sorted, gone), SizeOf);
  }

  lemma ThereTwice(b: seq<File>, i: nat, j: nat)
    requires i < j < |b| && b[i] == b[j]
    ensures multiset(b)[b[i]] >= 2
  {
    assert b == b[..j] + [b[j]] + b[j+1..];
    assert b[..j] == b[..i] + [b[i]] + b[..j][i+1..];
  }

  lemma DistinctPermutation(a: seq<File>, b: seq<File>)
    requires Distinct(a) && multiset(a) == multiset(b)
    ensures Distinct(b)
  {
    forall i, j | 0 <= i < j < |b| ensures b[i] != b[j] {
      if b[i] == b[j] {
        CountAtMostOne(a, b[i]);
        ThereTwice(b, i, j);
      }
    }
  }

  lemma {:induction false} CountAtMostOne(a: seq<File>, f: File)
    requires Distinct(a)
    ensures multiset(a)[f] <= 1
  {
    if a != [] {
      var n := |a| - 1;
      CountAtMostOne(a[..n], f);
      assert a == a[..n] + [a[n]];
      if multiset(a[..n])[f] == 1 { assert f in a[..n]; }
    }
  }
}

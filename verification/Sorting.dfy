/** sort.Slice by an integer key. */
module Sorting {
  predicate Ordered<T>(s: seq<T>, key: T -> int) {
    forall i, j :: 0 <= i < j < |s| ==> key(s[i]) <= key(s[j])
  }

  lemma InsertedContents<T>(s: seq<T>, x: T, i: nat)
    requires i <= |s|
    ensures multiset(s[..i] + [x] + s[i..]) == multiset(s) + multiset{x}
  {
    assert s == s[..i] + s[i..];
  }

  lemma InsertedOrder<T>(s: seq<T>, key: T -> int, x: T, i: nat)
    requires Ordered(s, key) && i <= |s|
    requires i > 0 ==> key(s[i-1]) <= key(x)
    requires i < |s| ==> key(x) <= key(s[i])
    ensures Ordered(s[..i] + [x] + s[i..], key)
  {
    var r := s[..i] + [x] + s[i..];
    forall j, k | 0 <= j < k < |r| ensures key(r[j]) <= key(r[k]) {
      var a := if j < i then s[j] else if j == i then x else s[j-1];
      var b := if k < i then s[k] else if k == i then x else s[k-1];
      assert r[j] == a && r[k] == b;
      if j < i { assert key(s[j]) <= key(s[i-1]); }
      if k > i { assert key(s[i]) <= key(s[k-1]); }
    }
  }

  lemma OneMore<T>(s: seq<T>, n: nat)
    requires n < |s|
    ensures multiset(s[..n+1]) == multiset(s[..n]) + multiset{s[n]}
  {
    assert s[..n+1] == s[..n] + [s[n]];
  }

  /** The loop of an insertion: where `x` belongs. */
  method Position<T>(sorted: seq<T>, key: T -> int, x: T) returns (i: nat)
    requires Ordered(sorted, key)
    ensures i <= |sorted|
    ensures (i > 0 ==> key(sorted[i-1]) <= key(x)) && (i < |sorted| ==> key(x) <= key(sorted[i]))
  {
    i := |sorted|;
    while i > 0 && key(x) < key(sorted[i-1])
      invariant i <= |sorted| && (i < |sorted| ==> key(x) < key(sorted[i]))
    {
      i := i - 1;
    }
  }

  method SortBy<T>(s: seq<T>, key: T -> int) returns (sorted: seq<T>)
    ensures Ordered(sorted, key) && multiset(sorted) == multiset(s)
  {
    sorted := [];
    for n := 0 to |s|
      invariant Ordered(sorted, key) && multiset(sorted) == multiset(s[..n])
    {
      hide Ordered;
      var i := Position(sorted, key, s[n]);
      InsertedContents(sorted, s[n], i);
      InsertedOrder(sorted, key, s[n], i);
      OneMore(s, n);
      sorted := sorted[..i] + [s[n]] + sorted[i..];
    }
    assert s[..|s|] == s;
  }
}

/** Sums over the elements of a sequence: the counting invariants of the protocols. */
module Tally {
  function Sum<T>(s: seq<T>, f: T -> nat): nat {
    if s == [] then 0 else Sum(s[..|s|-1], f) + f(s[|s|-1])
  }

  lemma {:induction false} SumUpdate<T>(s: seq<T>, f: T -> nat, c: nat, x: T)
    requires c < |s|
    ensures Sum(s[c := x], f) == Sum(s, f) - f(s[c]) + f(x)
  {
    var n := |s| - 1;
    if c < n {
      SumUpdate(s[..n], f, c, x);
      assert s[c := x][..n] == s[..n][c := x];
    } else {
      assert s[c := x][..n] == s[..n];
    }
  }

  lemma SumAppend<T>(s: seq<T>, f: T -> nat, x: T)
    ensures Sum(s + [x], f) == Sum(s, f) + f(x)
  {
    assert (s + [x])[..|s|] == s;
  }

  lemma {:induction false} SumPositive<T>(s: seq<T>, f: T -> nat)
    ensures Sum(s, f) > 0 <==> exists c :: 0 <= c < |s| && f(s[c]) > 0
  {
    if s != [] {
      var n := |s| - 1;
      SumPositive(s[..n], f);
      assert forall c :: 0 <= c < n ==> s[..n][c] == s[c];
    }
  }

  lemma {:induction false} SumBounds<T>(s: seq<T>, f: T -> nat, g: T -> nat)
    requires forall c :: 0 <= c < |s| ==> f(s[c]) <= g(s[c])
    ensures Sum(s, f) <= Sum(s, g)
  {
    if s != [] {
      SumBounds(s[..|s|-1], f, g);
    }
  }

  lemma {:induction false} SumSplit<T>(s: seq<T>, f: T -> nat, k: nat)
    requires k <= |s|
    ensures Sum(s, f) == Sum(s[..k], f) + Sum(s[k..], f)
  {
    if k == |s| {
      assert s[..k] == s;
    } else {
      var n := |s| - 1;
      SumSplit(s[..n], f, k);
      assert s[..n][..k] == s[..k] && s[k..][..n-k] == s[..n][k..];
    }
  }

  lemma MultisetWithout<T>(s: seq<T>, i: nat)
    requires i < |s|
    ensures multiset(s[..i] + s[i+1..]) == multiset(s) - multiset{s[i]}
  {
    assert s == s[..i] + [s[i]] + s[i+1..];
  }

  lemma SumWithout<T>(s: seq<T>, f: T -> nat, i: nat)
    requires i < |s|
    ensures Sum(s, f) == f(s[i]) + Sum(s[..i] + s[i+1..], f)
  {
    var a, b := s[..i], s[i+1..];
    SumSplit(s, f, i + 1);
    assert s[..i+1] == a + [s[i]];
    SumAppend(a, f, s[i]);
    SumSplit(a + b, f, i);
    assert (a + b)[..i] == a && (a + b)[i..] == b;
  }

  /** A sum does not depend on the order. */
  lemma {:induction false} SumPermutation<T>(s: seq<T>, t: seq<T>, f: T -> nat)
    requires multiset(s) == multiset(t)
    ensures Sum(s, f) == Sum(t, f)
    decreases |s|
  {
    if s == [] {
      assert |t| == |multiset(t)| == |multiset(s)| == 0;
    } else {
      assert s[0] in multiset(t);
      var i :| 0 <= i < |t| && t[i] == s[0];
      SumWithout(s, f, 0);
      SumWithout(t, f, i);
      MultisetWithout(s, 0);
      MultisetWithout(t, i);
      SumPermutation(s[..0] + s[1..], t[..i] + t[i+1..], f);
    }
  }
}

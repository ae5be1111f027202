/** Sequences of amounts without repetition. */
module Amounts {
  ghost predicate Descending(s: seq<nat>) {
    forall i, j :: 0 <= i < j < |s| ==> s[i] > s[j]
  }

  lemma DescendingConcat(s: seq<nat>, t: seq<nat>)
    requires Descending(s) && Descending(t) && (s != [] && t != [] ==> s[|s| - 1] > t[0])
    ensures Descending(s + t)
  {
    forall i, j | 0 <= i < j < |s + t| ensures (s + t)[i] > (s + t)[j] {
      if i < |s| <= j {
        assert i < |s| - 1 ==> s[i] > s[|s| - 1];
        assert j > |s| ==> t[0] > t[j - |s|];
      }
    }
  }

  predicate Distinct(s: seq<nat>) {
    s == [] || (s[0] !in s[1..] && Distinct(s[1..]))
  }

  lemma DistinctCons(a: nat, t: seq<nat>)
    requires Distinct(t) && a !in t
    ensures Distinct([a] + t)
  {
    assert ([a] + t)[1..] == t;
  }

  lemma {:induction false} DistinctConcat(s: seq<nat>, t: seq<nat>)
    requires Distinct(s) && Distinct(t) && forall a :: a in s ==> a !in t
    ensures Distinct(s + t)
  {
    if s == [] {
      assert s + t == t;
    } else {
      DistinctConcat(s[1..], t);
      assert s == [s[0]] + s[1..] && s + t == [s[0]] + (s[1..] + t);
      DistinctCons(s[0], s[1..] + t);
    }
  }

  lemma {:induction false} DistinctAt(s: seq<nat>, i: nat, j: nat)
    requires Distinct(s) && i < j < |s|
    ensures s[i] != s[j]
  {
    if i > 0 {
      DistinctAt(s[1..], i - 1, j - 1);
    } else {
      assert s[j] == s[1..][j - 1];
    }
  }

  lemma NextIsNew(s: seq<nat>, n: nat)
    requires Distinct(s) && n < |s|
    ensures s[n] in s && s[n] !in s[..n]
  {
    forall i | 0 <= i < n ensures s[i] != s[n] {
      DistinctAt(s, i, n);
    }
  }

  lemma {:induction false} PrefixDistinct(s: seq<nat>, n: nat)
    requires Distinct(s) && n <= |s|
    ensures Distinct(s[..n])
  {
    if n > 0 {
      PrefixDistinct(s[1..], n - 1);
      assert s[..n] == [s[0]] + s[1..][..n - 1];
      DistinctCons(s[0], s[1..][..n - 1]);
    }
  }

  lemma {:induction false} DescendingIsDistinct(s: seq<nat>)
    requires Descending(s)
    ensures Distinct(s)
  {
    if s != [] {
      DescendingIsDistinct(s[1..]);
    }
  }
}

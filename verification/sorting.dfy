/** Sorting of qubit indices. The embedding starts with Python's `sorted`
    on the target list; on natural numbers every correct sort yields the
    same sequence, so an insertion sort stands in for it. */
module Sorting {

  predicate Sorted(s: seq<nat>) {
    forall i, j :: 0 <= i < j < |s| ==> s[i] <= s[j]
  }

  /** Strictly increasing: sorted without repeats. */
  predicate Increasing(s: seq<nat>) {
    forall i, j :: 0 <= i < j < |s| ==> s[i] < s[j]
  }

  /** No index occurs twice. */
  predicate Distinct(s: seq<nat>) {
    forall i, j :: 0 <= i < j < |s| ==> s[i] != s[j]
  }

  /** The least element, found independently of any sort. */
  function Lowest(s: seq<nat>): (m: nat)
    requires |s| > 0
    ensures m in s
    ensures forall x :: x in s ==> m <= x
  {
    if |s| == 1 then s[0]
    else
      var rest := Lowest(s[1..]);
      assert forall x :: x in s ==> x == s[0] || x in s[1..];
      if s[0] <= rest then s[0] else rest
  }

  function Insert(x: nat, s: seq<nat>): (r: seq<nat>)
    requires Sorted(s)
    ensures Sorted(r)
    ensures multiset(r) == multiset(s) + multiset{x}
  {
    if |s| == 0 then [x]
    else if x <= s[0] then
      HeadIsLeast(s);
      SortedCons(x, s);
      [x] + s
    else
      var tail := Insert(x, s[1..]);
      Split(s);
      HeadIsLeast(s);
      assert forall y :: y in tail ==> y in multiset(s[1..]) + multiset{x};
      SortedCons(s[0], tail);
      [s[0]] + tail
  }

  /** The head of a sorted sequence is below every element. */
  lemma HeadIsLeast(s: seq<nat>)
    requires Sorted(s) && |s| > 0
    ensures forall y :: y in s ==> s[0] <= y
  {
    forall y | y in s
      ensures s[0] <= y
    {
      var k :| 0 <= k < |s| && s[k] == y;
    }
  }

  lemma SortedCons(h: nat, t: seq<nat>)
    requires Sorted(t)
    requires forall y :: y in t ==> h <= y
    ensures Sorted([h] + t)
  {
    var r := [h] + t;
    forall i, j | 0 <= i < j < |r|
      ensures r[i] <= r[j]
    {
      assert r[j] == t[j - 1];
      if i == 0 {
        assert t[j - 1] in t;
      } else {
        assert r[i] == t[i - 1];
      }
    }
  }

  lemma IncreasingCons(h: nat, t: seq<nat>)
    requires Increasing(t)
    requires forall y :: y in t ==> h < y
    ensures Increasing([h] + t)
  {
    var r := [h] + t;
    forall i, j | 0 <= i < j < |r|
      ensures r[i] < r[j]
    {
      assert r[j] == t[j - 1];
      if i == 0 {
        assert t[j - 1] in t;
      } else {
        assert r[i] == t[i - 1];
      }
    }
  }

  lemma Split(s: seq<nat>)
    requires |s| > 0
    ensures s == [s[0]] + s[1..]
    ensures multiset(s) == multiset{s[0]} + multiset(s[1..])
  {
  }

  /** The sorted permutation of s. */
  function Sort(s: seq<nat>): (r: seq<nat>)
    ensures Sorted(r)
    ensures multiset(r) == multiset(s)
  {
    if |s| == 0 then []
    else
      Split(s);
      Insert(s[0], Sort(s[1..]))
  }

  /** A sorted sequence is determined by its multiset of elements. */
  lemma {:induction false} SortedUnique(a: seq<nat>, b: seq<nat>)
    requires Sorted(a) && Sorted(b)
    requires multiset(a) == multiset(b)
    ensures a == b
    decreases |a|
  {
    assert |a| == |multiset(a)| == |multiset(b)| == |b|;
    if |a| > 0 {
      HeadIsLeast(a);
      HeadIsLeast(b);
      assert a[0] in multiset(b) && b[0] in multiset(a);
      assert a[0] == b[0];
      Split(a);
      Split(b);
      assert multiset(a[1..]) == multiset(a) - multiset{a[0]};
      assert multiset(b[1..]) == multiset(b) - multiset{b[0]};
      assert Sorted(a[1..]) && Sorted(b[1..]);
      SortedUnique(a[1..], b[1..]);
    }
  }

  /** Sorting forgets the order of its input. */
  lemma SortOrderIrrelevant(a: seq<nat>, b: seq<nat>)
    requires multiset(a) == multiset(b)
    ensures Sort(a) == Sort(b)
  {
    SortedUnique(Sort(a), Sort(b));
  }

  /** The head of the sorted sequence is the least element. */
  lemma SortHeadIsLowest(s: seq<nat>)
    requires |s| > 0
    ensures |Sort(s)| == |s|
    ensures Sort(s)[0] == Lowest(s)
  {
    var r := Sort(s);
    assert |r| == |multiset(r)| == |multiset(s)| == |s|;
    assert r[0] in multiset(s);
    assert Lowest(s) in multiset(r);
  }

  /** Sorting a list without repeats gives a strictly increasing list. */
  lemma {:induction false} SortDistinct(s: seq<nat>)
    requires Distinct(s)
    ensures Increasing(Sort(s))
  {
    if |s| > 0 {
      var rest := s[1..];
      assert Distinct(rest);
      SortDistinct(rest);
      assert s[0] !in rest;
      assert s[0] !in multiset(Sort(rest));
      InsertIncreasing(s[0], Sort(rest));
    }
  }

  lemma {:induction false} InsertIncreasing(x: nat, s: seq<nat>)
    requires Increasing(s) && x !in s
    ensures Increasing(Insert(x, s))
  {
    var r := Insert(x, s);
    if |s| > 0 && x > s[0] {
      assert Increasing(s[1..]);
      InsertIncreasing(x, s[1..]);
      var tail := Insert(x, s[1..]);
      assert r == [s[0]] + tail;
      assert forall y :: y in s[1..] ==> s[0] < y;
      assert forall y :: y in tail ==> y in multiset(s[1..]) + multiset{x};
      IncreasingCons(s[0], tail);
    } else if |s| > 0 {
      assert r == [x] + s;
      assert forall y :: y in s ==> x < y by {
        HeadIsLeast(s);
      }
      IncreasingCons(x, s);
    }
  }
}

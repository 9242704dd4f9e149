/**
  * Prediction lists: arrival timestamps that the merges combine with
  * `array_merge`, `array_unique` and `sort`.
  */
module Predictions {
  import opened Dicts

  /** Strictly increasing: in ascending order and free of duplicates. */
  ghost predicate Ascending(s: seq<int>) {
    forall i, j :: 0 <= i < j < |s| ==> s[i] < s[j]
  }

  ghost predicate NonDecreasing(s: seq<int>) {
    forall i, j :: 0 <= i < j < |s| ==> s[i] <= s[j]
  }

  /** `array_unique`: the first occurrence of each value, in their order. */
  function Unique(s: seq<int>): (r: seq<int>)
    ensures Distinct(r)
    ensures forall x :: x in r <==> x in s
  {
    if s == [] then []
    else
      var u := Unique(s[..|s| - 1]);
      if s[|s| - 1] in u then u else DistinctGrows(u, s[|s| - 1]); u + [s[|s| - 1]]
  }

  /** Places `x` into a list in ascending order. */
  function Insert(x: int, s: seq<int>): (r: seq<int>)
    requires NonDecreasing(s)
    ensures NonDecreasing(r)
    ensures multiset(r) == multiset(s) + multiset{x}
  {
    if s == [] || x <= s[0] then [x] + s
    else
      var rest := Insert(x, s[1..]);
      assert s == [s[0]] + s[1..];
      HeadBelowRest(s[0], s[1..], x, rest);
      [s[0]] + rest
  }

  lemma HeadBelowRest(h: int, tail: seq<int>, x: int, rest: seq<int>)
    requires NonDecreasing([h] + tail) && h < x
    requires NonDecreasing(rest) && multiset(rest) == multiset(tail) + multiset{x}
    ensures NonDecreasing([h] + rest)
  {
    forall y | y in rest ensures h <= y {
      assert y in multiset(rest);
      if y != x {
        assert y in multiset(tail);
        assert y in tail;
        var k :| 0 <= k < |tail| && tail[k] == y;
        assert ([h] + tail)[0] == h && ([h] + tail)[k + 1] == y;
      }
    }
    forall i, j | 0 <= i < j < |[h] + rest| ensures ([h] + rest)[i] <= ([h] + rest)[j] {
      if i == 0 {
        assert ([h] + rest)[j] == rest[j - 1] && rest[j - 1] in rest;
      } else {
        assert ([h] + rest)[i] == rest[i - 1] && ([h] + rest)[j] == rest[j - 1];
      }
    }
  }

  /** `sort` on integers: the same values in ascending order. */
  function Sort(s: seq<int>): (r: seq<int>)
    ensures NonDecreasing(r)
    ensures multiset(r) == multiset(s)
  {
    if s == [] then []
    else
      assert s == s[..|s| - 1] + [s[|s| - 1]];
      Insert(s[|s| - 1], Sort(s[..|s| - 1]))
  }

  /**
    * The predictions merge of getStopInfoForRoute and getStopInfo:
    * `array_merge`, then `array_unique`, then `sort`.
    */
  function MergePredictions(a: seq<int>, b: seq<int>): (r: seq<int>)
    ensures Ascending(r)
    ensures forall x :: x in r <==> x in a || x in b
  {
    var u := Unique(a + b);
    var r := Sort(u);
    PermutationKeepsDistinct(u, r);
    SameElements(u, r);
    SortedDistinctAscending(r);
    r
  }

  lemma SortedDistinctAscending(s: seq<int>)
    requires NonDecreasing(s) && Distinct(s)
    ensures Ascending(s)
  {
    forall i, j | 0 <= i < j < |s| ensures s[i] < s[j] {
      DistinctAt(s, i, j);
    }
  }

  /** Two ascending lists with the same elements are the same list. */
  lemma {:induction false} AscendingUnique(r1: seq<int>, r2: seq<int>)
    requires Ascending(r1) && Ascending(r2)
    requires forall x :: x in r1 <==> x in r2
    ensures r1 == r2
  {
    if r1 != [] {
      assert r1[0] in r1;
      assert r1[0] in r2;
    }
    if r2 != [] {
      assert r2[0] in r2;
      assert r2[0] in r1;
    }
    if r1 != [] && r2 != [] {
      var m1, m2 := r1[0], r2[0];
      assert m2 in r1;
      assert m1 in r2;
      assert m1 <= m2 && m2 <= m1 by {
        var i :| 0 <= i < |r1| && r1[i] == m2;
        var j :| 0 <= j < |r2| && r2[j] == m1;
      }
      forall x ensures x in r1[1..] <==> x in r2[1..] {
        if x in r1[1..] {
          var i :| 0 <= i < |r1[1..]| && r1[1..][i] == x;
          assert r1[i + 1] == x && x > m1;
          assert x in r2;
        }
        if x in r2[1..] {
          var i :| 0 <= i < |r2[1..]| && r2[1..][i] == x;
          assert r2[i + 1] == x && x > m2;
          assert x in r1;
        }
      }
      AscendingUnique(r1[1..], r2[1..]);
      assert r1 == [m1] + r1[1..] && r2 == [m2] + r2[1..];
    }
  }

  /** Merging a list with itself gives `sort(array_unique(S))`. */
  lemma MergeSelf(s: seq<int>)
    ensures MergePredictions(s, s) == Sort(Unique(s))
  {
    var u := Unique(s);
    PermutationKeepsDistinct(u, Sort(u));
    SameElements(u, Sort(u));
    SortedDistinctAscending(Sort(u));
    AscendingUnique(MergePredictions(s, s), Sort(u));
  }

  /** A list that is already ascending is a fixed point of merging with itself. */
  lemma MergeAscendingSelf(s: seq<int>)
    requires Ascending(s)
    ensures MergePredictions(s, s) == s
  {
    AscendingUnique(MergePredictions(s, s), s);
  }

  /** The merge does not depend on which list comes first. */
  lemma MergeCommutes(a: seq<int>, b: seq<int>)
    ensures MergePredictions(a, b) == MergePredictions(b, a)
  {
    AscendingUnique(MergePredictions(a, b), MergePredictions(b, a));
  }
}

/**
 * Ascending sort of durations: the role `sort.Slice` plays in the report. Any
 * correct sort gives the same result (SortedPermutationUnique), so the model
 * uses a plain insertion sort.
 */
module Sorting {

  predicate Sorted(s: seq<int>)
  {
    forall i, j :: 0 <= i < j < |s| ==> s[i] <= s[j]
  }

  /** Insert x into a sorted sequence, keeping it sorted. */
  function Insert(x: int, s: seq<int>): (r: seq<int>)
    requires Sorted(s)
    ensures Sorted(r)
    ensures multiset(r) == multiset(s) + multiset{x}
    ensures |r| == |s| + 1
  {
    if s == [] then [x]
    else if x <= s[0] then [x] + s
    else
      var rest := Insert(x, s[1..]);
      assert s == [s[0]] + s[1..];
      HeadBelowAll(s[0], s[1..], x, rest);
      SortedCons(s[0], rest);
      [s[0]] + rest
  }

  /** A head no greater than the sorted tail's elements gives a sorted sequence. */
  lemma SortedCons(h: int, r: seq<int>)
    requires Sorted(r) && forall k :: 0 <= k < |r| ==> h <= r[k]
    ensures Sorted([h] + r)
  {
    var s := [h] + r;
    forall i, j | 0 <= i < j < |s| ensures s[i] <= s[j] {
      assert s[j] == r[j - 1];
      if i > 0 {
        assert s[i] == r[i - 1];
      }
    }
  }

  /** h stays below everything after inserting x (h < x) into a sorted tail that h is below. */
  lemma HeadBelowAll(h: int, tail: seq<int>, x: int, rest: seq<int>)
    requires Sorted([h] + tail) && h < x
    requires multiset(rest) == multiset(tail) + multiset{x}
    ensures forall k :: 0 <= k < |rest| ==> h <= rest[k]
  {
    forall k | 0 <= k < |rest| ensures h <= rest[k] {
      assert rest[k] in multiset(rest);
      if rest[k] != x {
        assert rest[k] in multiset(tail);
        var i :| 0 <= i < |tail| && tail[i] == rest[k];
        assert ([h] + tail)[0] == h && ([h] + tail)[i + 1] == tail[i];
      }
    }
  }

  /** The elements of s in ascending order. */
  function SortAscending(s: seq<int>): (r: seq<int>)
    ensures Sorted(r)
    ensures multiset(r) == multiset(s)
    ensures |r| == |s|
  {
    if s == [] then []
    else
      assert s == s[..|s| - 1] + [s[|s| - 1]];
      Insert(s[|s| - 1], SortAscending(s[..|s| - 1]))
  }

  /** Two sorted sequences with the same elements are equal: the sorted order is unique. */
  lemma {:induction false} SortedPermutationUnique(a: seq<int>, b: seq<int>)
    requires Sorted(a) && Sorted(b) && multiset(a) == multiset(b)
    ensures a == b
    decreases |a|
  {
    assert |a| == |multiset(a)| == |multiset(b)| == |b|;
    if a != [] {
      // both heads are the minimum of the same multiset
      assert a[0] in multiset(b);
      assert b[0] in multiset(a);
      HeadIsLeast(b, a[0]);
      HeadIsLeast(a, b[0]);
      var x, ta, tb := a[0], a[1..], b[1..];
      assert b[0] == x;
      DropHead(a);
      DropHead(b);
      SortedPermutationUnique(ta, tb);
      calc {
        a;
        [x] + ta;
        [x] + tb;
        b;
      }
    }
  }

  /** Dropping the head of a sorted sequence leaves a sorted sequence without that element. */
  lemma DropHead(s: seq<int>)
    requires Sorted(s) && s != []
    ensures Sorted(s[1..])
    ensures s == [s[0]] + s[1..]
    ensures multiset(s[1..]) == multiset(s) - multiset{s[0]}
  {
    assert s == [s[0]] + s[1..];
  }

  lemma HeadIsLeast(s: seq<int>, x: int)
    requires Sorted(s) && x in multiset(s)
    ensures s[0] <= x
  {
    assert x in s;
  }

  /** The first element of a sorted sequence is its least, the last its greatest. */
  lemma SortedBounds(s: seq<int>, x: int)
    requires Sorted(s) && x in s
    ensures s[0] <= x <= s[|s| - 1]
  {
  }
}

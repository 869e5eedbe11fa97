/** Python's `sorted(samples, reverse=True)` on reals: a non-increasing
    permutation of its input, and the only one. */
module Sorting {

  predicate SortedDesc(s: seq<real>)
  {
    forall i, j :: 0 <= i < j < |s| ==> s[i] >= s[j]
  }

  /** A head no smaller than the first element keeps a sequence sorted. */
  lemma ConsSorted(h: real, t: seq<real>)
    requires SortedDesc(t)
    requires |t| == 0 || h >= t[0]
    ensures SortedDesc([h] + t)
  {
  }

  /** Inserts `x` into a non-increasing sequence, keeping it non-increasing. */
  function Insert(x: real, s: seq<real>): (r: seq<real>)
    requires SortedDesc(s)
    ensures SortedDesc(r)
    ensures multiset(r) == multiset(s) + multiset{x}
    ensures |r| == |s| + 1 && (r[0] == x || (|s| > 0 && r[0] == s[0]))
    decreases |s|
  {
    if |s| == 0 || x >= s[0] then
      ConsSorted(x, s);
      [x] + s
    else
      var tail := Insert(x, s[1..]);
      assert s == [s[0]] + s[1..];
      ConsSorted(s[0], tail);
      [s[0]] + tail
  }

  /** Insertion sort into non-increasing order. */
  function SortDesc(s: seq<real>): (r: seq<real>)
    ensures SortedDesc(r)
    ensures multiset(r) == multiset(s)
    ensures |r| == |s|
    decreases |s|
  {
    if |s| == 0 then []
    else
      assert s == [s[0]] + s[1..];
      Insert(s[0], SortDesc(s[1..]))
  }

  /** The head of a non-increasing sequence is its largest element. */
  lemma HeadIsLargest(a: seq<real>, y: real)
    requires SortedDesc(a) && y in a
    ensures y <= a[0]
  {
    var i :| 0 <= i < |a| && a[i] == y;
  }

  lemma TailMultiset(a: seq<real>)
    requires |a| > 0
    ensures multiset(a[1..]) == multiset(a) - multiset{a[0]}
  {
    assert a == [a[0]] + a[1..];
  }

  lemma TailSorted(a: seq<real>)
    requires SortedDesc(a) && |a| > 0
    ensures SortedDesc(a[1..])
  {
  }

  /** Two non-increasing permutations of each other start with the same
      element. */
  lemma SameHead(a: seq<real>, b: seq<real>)
    requires SortedDesc(a) && SortedDesc(b)
    requires multiset(a) == multiset(b) && |a| > 0
    ensures |b| > 0 && a[0] == b[0]
  {
    assert a[0] in multiset(b) && b[0] in multiset(a);
    HeadIsLargest(b, a[0]);
    HeadIsLargest(a, b[0]);
  }

  /** Two non-increasing sequences with the same elements are equal, so the
      result of sorting does not depend on how it was computed. */
  lemma {:induction false} SortedPermutationIsUnique(a: seq<real>, b: seq<real>)
    requires SortedDesc(a) && SortedDesc(b)
    requires multiset(a) == multiset(b)
    ensures a == b
    decreases |a|
  {
    if |a| == 0 {
      assert |multiset(b)| == 0;
    } else {
      SameHead(a, b);
      TailMultiset(a);
      TailMultiset(b);
      TailSorted(a);
      TailSorted(b);
      SortedPermutationIsUnique(a[1..], b[1..]);
      assert a == [a[0]] + a[1..];
      assert b == [b[0]] + b[1..];
    }
  }
}

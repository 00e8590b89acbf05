/**
  Sums and sorting of integer samples.

  `Sort` is an insertion sort. Any two sorted permutations of one sequence are
  equal (`SortedPermutationUnique`), so `Sort` stands for every correct sort,
  `sort_unstable` included. `SumOfPermutation` shows that the sum of a sequence
  depends only on its multiset of elements.
 */
module Sorting {

  function Sum(s: seq<int>): int
    decreases |s|
  {
    if |s| == 0 then 0 else s[0] + Sum(s[1..])
  }

  predicate Sorted(s: seq<int>)
  {
    forall i, j :: 0 <= i < j < |s| ==> s[i] <= s[j]
  }

  /** Inserts `x` before the first element not smaller than it. */
  function Insert(x: int, s: seq<int>): (r: seq<int>)
    requires Sorted(s)
    ensures Sorted(r)
    ensures multiset(r) == multiset(s) + multiset{x}
    decreases |s|
  {
    if |s| == 0 || x <= s[0] then
      [x] + s
    else
      var rest := Insert(x, s[1..]);
      assert s == [s[0]] + s[1..];
      assert forall i :: 0 <= i < |s[1..]| ==> s[0] <= s[1..][i];
      LowerBoundByMultiset(rest, s[1..], x, s[0]);
      SortedCons(s[0], rest);
      [s[0]] + rest
  }

  lemma SortedCons(h: int, t: seq<int>)
    requires Sorted(t)
    requires forall k :: 0 <= k < |t| ==> h <= t[k]
    ensures Sorted([h] + t)
  {
  }

  /** A lower bound of `t` and of `x` bounds every element of a rearrangement of `t` plus `x`. */
  lemma LowerBoundByMultiset(r: seq<int>, t: seq<int>, x: int, m: int)
    requires multiset(r) == multiset(t) + multiset{x}
    requires m <= x && forall i :: 0 <= i < |t| ==> m <= t[i]
    ensures forall k :: 0 <= k < |r| ==> m <= r[k]
  {
    forall k | 0 <= k < |r|
      ensures m <= r[k]
    {
      assert r[k] in multiset(r);
      if r[k] != x {
        assert r[k] in multiset(t);
      }
    }
  }

  /** Sorts into ascending order, keeping every element with its multiplicity. */
  function Sort(s: seq<int>): (r: seq<int>)
    ensures Sorted(r)
    ensures multiset(r) == multiset(s)
    ensures |r| == |s|
    decreases |s|
  {
    if |s| == 0 then
      []
    else
      assert s == [s[0]] + s[1..];
      Insert(s[0], Sort(s[1..]))
  }

  lemma {:induction false} SumConcat(a: seq<int>, b: seq<int>)
    ensures Sum(a + b) == Sum(a) + Sum(b)
    decreases |a|
  {
    if |a| > 0 {
      assert (a + b)[1..] == a[1..] + b;
      SumConcat(a[1..], b);
    } else {
      assert a + b == b;
    }
  }

  lemma {:induction false} SumInsert(x: int, s: seq<int>)
    requires Sorted(s)
    ensures Sum(Insert(x, s)) == x + Sum(s)
    decreases |s|
  {
    if |s| == 0 || x <= s[0] {
      assert ([x] + s)[1..] == s;
    } else {
      SortedTail(s);
      var rest := Insert(x, s[1..]);
      assert ([s[0]] + rest)[1..] == rest;
      SumInsert(x, s[1..]);
    }
  }

  /** Sorting does not change the sum. */
  lemma {:induction false} SumSort(s: seq<int>)
    ensures Sum(Sort(s)) == Sum(s)
    decreases |s|
  {
    if |s| > 0 {
      SumSort(s[1..]);
      SumInsert(s[0], Sort(s[1..]));
    }
  }

  /** The first element of a sorted sequence is its least element. */
  lemma SortedHeadIsLeast(s: seq<int>, x: int)
    requires Sorted(s) && x in multiset(s)
    ensures |s| > 0 && s[0] <= x
  {
  }

  lemma SortedTail(s: seq<int>)
    requires Sorted(s) && |s| > 0
    ensures Sorted(s[1..])
  {
  }

  /** There is only one sorted arrangement of a multiset of integers. */
  lemma {:induction false} SortedPermutationUnique(a: seq<int>, b: seq<int>)
    requires Sorted(a) && Sorted(b)
    requires multiset(a) == multiset(b)
    ensures a == b
    decreases |a|
  {
    if |a| == 0 {
      assert |b| == |multiset(b)| == 0;
    } else {
      assert |b| == |multiset(b)| == |a|;
      assert a[0] in multiset(a) && b[0] in multiset(b);
      SortedHeadIsLeast(a, b[0]);
      SortedHeadIsLeast(b, a[0]);
      assert a[0] == b[0];
      var ta, tb := a[1..], b[1..];
      assert a == [a[0]] + ta;
      assert b == [b[0]] + tb;
      assert multiset(ta) == multiset(tb) by {
        assert multiset(a) == multiset{a[0]} + multiset(ta);
        assert multiset(b) == multiset{b[0]} + multiset(tb);
        assert multiset(ta) == multiset(a) - multiset{a[0]};
        assert multiset(tb) == multiset(b) - multiset{b[0]};
      }
      SortedTail(a);
      SortedTail(b);
      SortedPermutationUnique(ta, tb);
    }
  }

  /** The sum of a sequence depends only on its elements and their multiplicities, not on their order. */
  lemma SumOfPermutation(a: seq<int>, b: seq<int>)
    requires multiset(a) == multiset(b)
    ensures Sum(a) == Sum(b)
  {
    SortedPermutationUnique(Sort(a), Sort(b));
    SumSort(a);
    SumSort(b);
  }

  /** Rearranging a sequence keeps its elements within any bounds they were within. */
  lemma PermutationInRange(a: seq<int>, b: seq<int>, lo: int, hi: int)
    requires multiset(a) == multiset(b)
    requires forall i :: 0 <= i < |b| ==> lo <= b[i] <= hi
    ensures forall i :: 0 <= i < |a| ==> lo <= a[i] <= hi
  {
    forall i | 0 <= i < |a|
      ensures lo <= a[i] <= hi
    {
      assert a[i] in multiset(b);
      var j :| 0 <= j < |b| && b[j] == a[i];
    }
  }

  /** A slice keeps the bounds of the sequence it is cut from. */
  lemma SliceInRange(s: seq<int>, i: int, j: int, lo: int, hi: int)
    requires 0 <= i <= j <= |s|
    requires forall k :: 0 <= k < |s| ==> lo <= s[k] <= hi
    ensures forall k :: 0 <= k < |s[i..j]| ==> lo <= s[i..j][k] <= hi
  {
    forall k | 0 <= k < |s[i..j]|
      ensures lo <= s[i..j][k] <= hi
    {
      assert s[i..j][k] == s[i + k];
    }
  }

  /** The middle of a rearrangement of `s` sums to the sum of `s` less the two outer pieces. */
  lemma SumOfMiddle(s: seq<int>, low: seq<int>, mid: seq<int>, high: seq<int>)
    requires multiset(low + mid + high) == multiset(s)
    ensures Sum(mid) == Sum(s) - Sum(low) - Sum(high)
  {
    SumConcat(low + mid, high);
    SumConcat(low, mid);
    SumOfPermutation(low + mid + high, s);
  }

  /** The middle piece of a three-piece concatenation is cut back out by slicing. */
  lemma MiddleOfConcat(low: seq<int>, mid: seq<int>, high: seq<int>)
    ensures (low + mid + high)[|low|..|low| + |mid|] == mid
  {
  }

  /** Summing a sequence whose elements all lie in `[lo, hi]` gives a total between `lo` and `hi` times its length. */
  lemma {:induction false} SumBounds(s: seq<int>, lo: int, hi: int)
    requires forall i :: 0 <= i < |s| ==> lo <= s[i] <= hi
    ensures lo * |s| <= Sum(s) <= hi * |s|
    decreases |s|
  {
    if |s| > 0 {
      SumBounds(s[1..], lo, hi);
      assert lo * |s| == lo + lo * (|s| - 1);
      assert hi * |s| == hi + hi * (|s| - 1);
    }
  }
}

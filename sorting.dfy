/** Python's built-in `sorted` on a list of integers, and the facts about
    ascending sequences that the rest of the model relies on. */
module Sorting {

  /** The sequence is in ascending (non-decreasing) order. */
  predicate Ascending(s: seq<int>) {
    forall i, j :: 0 <= i < j < |s| ==> s[i] <= s[j]
  }

  /** x is at most every element of s. */
  predicate LowerBound(x: int, s: seq<int>) {
    forall k :: 0 <= k < |s| ==> x <= s[k]
  }

  lemma LowerBoundPermutation(x: int, s: seq<int>, t: seq<int>)
    requires LowerBound(x, t) && multiset(s) <= multiset(t)
    ensures LowerBound(x, s)
  {
    forall k | 0 <= k < |s| ensures x <= s[k] {
      assert s[k] in multiset(t);
    }
  }

  lemma ConsAscending(x: int, s: seq<int>)
    requires Ascending(s) && LowerBound(x, s)
    ensures Ascending([x] + s)
  {
  }

  lemma SnocAscending(s: seq<int>, x: int)
    requires Ascending(s) && (s != [] ==> s[|s| - 1] <= x)
    ensures Ascending(s + [x])
  {
  }

  /** Inserts x into an ascending sequence in front of the first element not smaller than it. */
  function Insert(x: int, s: seq<int>): (r: seq<int>)
    requires Ascending(s)
    ensures Ascending(r)
    ensures multiset(r) == multiset{x} + multiset(s)
    ensures |r| == |s| + 1
    decreases |s|
  {
    if s == [] || x <= s[0] then [x] + s
    else
      var t := Insert(x, s[1..]);
      InsertStep(x, s, t);
      [s[0]] + t
  }

  /** Putting the head back in front of x inserted into the tail. */
  lemma InsertStep(x: int, s: seq<int>, t: seq<int>)
    requires Ascending(s) && s != [] && s[0] < x
    requires Ascending(t) && multiset(t) == multiset{x} + multiset(s[1..]) && |t| == |s[1..]| + 1
    ensures Ascending([s[0]] + t)
    ensures multiset([s[0]] + t) == multiset{x} + multiset(s)
    ensures |[s[0]] + t| == |s| + 1
  {
    assert s == [s[0]] + s[1..];
    assert LowerBound(s[0], [x] + s[1..]);
    assert multiset(t) == multiset([x] + s[1..]);
    LowerBoundPermutation(s[0], t, [x] + s[1..]);
    ConsAscending(s[0], t);
  }

  /** `sorted(s)`: an ascending permutation of s. Python uses Timsort; any
      correct sort gives the same list (AscendingPermutationUnique), so
      insertion sort stands in for it here. */
  function Sort(s: seq<int>): (r: seq<int>)
    ensures Ascending(r)
    ensures multiset(r) == multiset(s)
    ensures |r| == |s|
  {
    if s == [] then []
    else
      assert s == [s[0]] + s[1..];
      Insert(s[0], Sort(s[1..]))
  }

  /** The head of an ascending sequence is at most each of its elements. */
  lemma HeadIsLeast(a: seq<int>, x: int)
    requires Ascending(a) && x in multiset(a)
    ensures a != [] && a[0] <= x
  {
    var j :| 0 <= j < |a| && a[j] == x;
  }

  lemma TailMultiset(a: seq<int>)
    requires a != []
    ensures multiset(a[1..]) == multiset(a) - multiset{a[0]}
  {
    assert a == [a[0]] + a[1..];
  }

  lemma AscendingTail(a: seq<int>)
    requires Ascending(a) && a != []
    ensures Ascending(a[1..])
  {
  }

  lemma SameTailMultiset(a: seq<int>, b: seq<int>)
    requires a != [] && b != [] && a[0] == b[0] && multiset(a) == multiset(b)
    ensures multiset(a[1..]) == multiset(b[1..])
  {
    TailMultiset(a);
    TailMultiset(b);
  }

  lemma SameHeadAndTail(a: seq<int>, b: seq<int>)
    requires a != [] && b != [] && a[0] == b[0] && a[1..] == b[1..]
    ensures a == b
  {
    assert a == [a[0]] + a[1..];
    assert b == [b[0]] + b[1..];
  }

  /** An ascending sequence is determined by its multiset of elements. */
  lemma {:induction false} AscendingPermutationUnique(a: seq<int>, b: seq<int>)
    requires Ascending(a) && Ascending(b)
    requires multiset(a) == multiset(b)
    ensures a == b
    decreases |a|
  {
    assert |a| == |multiset(a)| == |multiset(b)| == |b|;
    if a != [] {
      assert a[0] in multiset(a);
      assert b[0] in multiset(b);
      HeadIsLeast(b, a[0]);
      HeadIsLeast(a, b[0]);
      SameTailMultiset(a, b);
      AscendingTail(a);
      AscendingTail(b);
      AscendingPermutationUnique(a[1..], b[1..]);
      SameHeadAndTail(a, b);
    }
  }

  /** `sorted(s)` is the only ascending permutation of s. */
  lemma SortCharacterised(s: seq<int>, r: seq<int>)
    requires Ascending(r) && multiset(r) == multiset(s)
    ensures r == Sort(s)
  {
    AscendingPermutationUnique(r, Sort(s));
  }

  /** Sorting an already sorted list returns it unchanged. */
  lemma SortIdempotent(s: seq<int>)
    ensures Sort(Sort(s)) == Sort(s)
  {
    SortCharacterised(Sort(s), Sort(s));
  }
}

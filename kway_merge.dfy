/** The k-way merge `list(merge(*sorted_chunks))` of `parallel_sort`
    (src/execution_cluster.py:37, src/iface_cluster.py:35), which Python's
    `heapq.merge` performs with a heap of chunk heads. */
module KWayMerge {
  import opened Sorting
  import opened Chunking

  /** Two-way merge of two lists, taking from the left on ties. */
  function Merge(a: seq<int>, b: seq<int>): (r: seq<int>)
    ensures multiset(r) == multiset(a) + multiset(b)
    decreases |a| + |b|
  {
    if a == [] then b
    else if b == [] then a
    else if a[0] <= b[0] then
      assert a == [a[0]] + a[1..];
      [a[0]] + Merge(a[1..], b)
    else
      assert b == [b[0]] + b[1..];
      [b[0]] + Merge(a, b[1..])
  }

  /** Merging two ascending lists gives an ascending list. */
  lemma {:induction false} MergeAscending(a: seq<int>, b: seq<int>)
    requires Ascending(a) && Ascending(b)
    ensures Ascending(Merge(a, b))
    decreases |a| + |b|
  {
    if a != [] && b != [] {
      if a[0] <= b[0] {
        var t := Merge(a[1..], b);
        MergeAscending(a[1..], b);
        assert LowerBound(a[0], a[1..] + b);
        assert multiset(t) == multiset(a[1..] + b);
        LowerBoundPermutation(a[0], t, a[1..] + b);
        ConsAscending(a[0], t);
      } else {
        var t := Merge(a, b[1..]);
        MergeAscending(a, b[1..]);
        assert LowerBound(b[0], a + b[1..]);
        assert multiset(t) == multiset(a + b[1..]);
        LowerBoundPermutation(b[0], t, a + b[1..]);
        ConsAscending(b[0], t);
      }
    }
  }

  predicate AllAscending(cs: seq<seq<int>>) {
    forall c :: 0 <= c < |cs| ==> Ascending(cs[c])
  }

  /** The merge of any number of lists, as a right fold of the two-way merge:
      it keeps every element of every list, and its result is ascending when
      every list is. */
  function MergeAll(cs: seq<seq<int>>): (r: seq<int>)
    ensures multiset(r) == multiset(Flatten(cs))
    ensures AllAscending(cs) ==> Ascending(r)
  {
    if cs == [] then []
    else
      var t := MergeAll(cs[1..]);
      if AllAscending(cs) then
        assert Ascending(cs[0]) && AllAscending(cs[1..]);
        MergeAscending(cs[0], t);
        Merge(cs[0], t)
      else Merge(cs[0], t)
  }

  /** On sorted inputs, the merge is the sorted concatenation of the inputs. */
  lemma MergeAllIsSortedConcat(cs: seq<seq<int>>)
    requires AllAscending(cs)
    ensures MergeAll(cs) == Sort(Flatten(cs))
  {
    SortCharacterised(Flatten(cs), MergeAll(cs));
  }

  /** A cursor per chunk: cur[c] elements of chunk c are consumed. */
  predicate ValidCursors(cs: seq<seq<int>>, cur: seq<int>) {
    |cur| == |cs| && forall c :: 0 <= c < |cs| ==> 0 <= cur[c] <= |cs[c]|
  }

  /** Some chunk still has an element at its cursor. */
  predicate FrontierNonEmpty(cs: seq<seq<int>>, cur: seq<int>)
    requires ValidCursors(cs, cur)
  {
    exists c :: 0 <= c < |cs| && cur[c] < |cs[c]|
  }

  /** The elements not yet consumed, chunk i onwards. */
  function Rest(cs: seq<seq<int>>, cur: seq<int>, i: nat): seq<int>
    requires ValidCursors(cs, cur) && i <= |cs|
    decreases |cs| - i
  {
    if i == |cs| then [] else cs[i][cur[i]..] + Rest(cs, cur, i + 1)
  }

  lemma {:induction false} RestInitial(cs: seq<seq<int>>, cur: seq<int>, i: nat)
    requires ValidCursors(cs, cur) && i <= |cs|
    requires forall c :: 0 <= c < |cs| ==> cur[c] == 0
    ensures Rest(cs, cur, i) == Flatten(cs[i..])
    decreases |cs| - i
  {
    if i < |cs| {
      RestInitial(cs, cur, i + 1);
      assert cs[i..][0] == cs[i];
      assert cs[i..][1..] == cs[i + 1..];
      assert cs[i][0..] == cs[i];
    } else {
      assert cs[i..] == [];
    }
  }

  lemma {:induction false} RestExhausted(cs: seq<seq<int>>, cur: seq<int>, i: nat)
    requires ValidCursors(cs, cur) && i <= |cs|
    requires forall c :: i <= c < |cs| ==> cur[c] == |cs[c]|
    ensures Rest(cs, cur, i) == []
    decreases |cs| - i
  {
    if i < |cs| {
      RestExhausted(cs, cur, i + 1);
    }
  }

  lemma AdvanceValid(cs: seq<seq<int>>, cur: seq<int>, m: nat)
    requires ValidCursors(cs, cur) && m < |cs| && cur[m] < |cs[m]|
    ensures ValidCursors(cs, cur[m := cur[m] + 1])
  {
  }

  /** The chunks after m are untouched when the cursor of chunk m advances. */
  lemma {:induction false} RestAfterAdvance(cs: seq<seq<int>>, cur: seq<int>, m: nat, i: nat)
    requires ValidCursors(cs, cur) && m < |cs| && cur[m] < |cs[m]|
    requires m < i <= |cs|
    ensures ValidCursors(cs, cur[m := cur[m] + 1])
    ensures Rest(cs, cur, i) == Rest(cs, cur[m := cur[m] + 1], i)
    decreases |cs| - i
  {
    AdvanceValid(cs, cur, m);
    if i < |cs| {
      RestAfterAdvance(cs, cur, m, i + 1);
    }
  }

  /** Advancing the cursor of chunk m drops its head from chunk m onwards. */
  lemma RestAdvanceAt(cs: seq<seq<int>>, cur: seq<int>, m: nat)
    requires ValidCursors(cs, cur) && m < |cs| && cur[m] < |cs[m]|
    ensures ValidCursors(cs, cur[m := cur[m] + 1])
    ensures Rest(cs, cur, m) == [cs[m][cur[m]]] + Rest(cs, cur[m := cur[m] + 1], m)
  {
    var cur' := cur[m := cur[m] + 1];
    RestAfterAdvance(cs, cur, m, m + 1);
    var h := cs[m][cur[m]];
    var tail := Rest(cs, cur, m + 1);
    assert cs[m][cur[m]..] == [h] + cs[m][cur'[m]..];
    assert Rest(cs, cur', m) == cs[m][cur'[m]..] + tail;
  }

  /** Advancing the cursor of chunk m removes exactly its head from what is left. */
  lemma {:induction false} RestAdvance(cs: seq<seq<int>>, cur: seq<int>, m: nat, i: nat)
    requires ValidCursors(cs, cur) && m < |cs| && cur[m] < |cs[m]|
    requires i <= m
    ensures ValidCursors(cs, cur[m := cur[m] + 1])
    ensures multiset(Rest(cs, cur, i)) == multiset{cs[m][cur[m]]} + multiset(Rest(cs, cur[m := cur[m] + 1], i))
    decreases |cs| - i
  {
    var cur' := cur[m := cur[m] + 1];
    AdvanceValid(cs, cur, m);
    if i == m {
      RestAdvanceAt(cs, cur, m);
    } else {
      RestAdvance(cs, cur, m, i + 1);
      RestStep(cs, cur, cur', i);
      MultisetShift(multiset(Rest(cs, cur, i)), multiset(cs[i][cur[i]..]), multiset(Rest(cs, cur, i + 1)),
                    multiset(Rest(cs, cur', i + 1)), multiset(Rest(cs, cur', i)), cs[m][cur[m]]);
    }
  }

  /** Removing h from the tail of a union removes it from the union. */
  lemma MultisetShift(a: multiset<int>, head: multiset<int>, b: multiset<int>, b': multiset<int>, a': multiset<int>, h: int)
    requires a == head + b && b == multiset{h} + b' && a' == head + b'
    ensures a == multiset{h} + a'
  {
  }

  /** Rest at chunk i is chunk i's remainder followed by Rest at i + 1,
      for two cursor lists that agree on chunk i. */
  lemma RestStep(cs: seq<seq<int>>, cur: seq<int>, cur': seq<int>, i: nat)
    requires ValidCursors(cs, cur) && ValidCursors(cs, cur') && i < |cs| && cur[i] == cur'[i]
    ensures multiset(Rest(cs, cur, i)) == multiset(cs[i][cur[i]..]) + multiset(Rest(cs, cur, i + 1))
    ensures multiset(Rest(cs, cur', i)) == multiset(cs[i][cur[i]..]) + multiset(Rest(cs, cur', i + 1))
  {
  }

  /** x is at most every element that no cursor has passed yet. */
  predicate BelowFrontier(x: int, cs: seq<seq<int>>, cur: seq<int>)
    requires ValidCursors(cs, cur)
  {
    forall c, j :: 0 <= c < |cs| && cur[c] <= j < |cs[c]| ==> x <= cs[c][j]
  }

  /** The smallest head is at most every remaining element, since each chunk is ascending. */
  lemma MinHeadBelowFrontier(cs: seq<seq<int>>, cur: seq<int>, m: nat)
    requires AllAscending(cs) && ValidCursors(cs, cur)
    requires m < |cs| && cur[m] < |cs[m]|
    requires forall c :: 0 <= c < |cs| && cur[c] < |cs[c]| ==> cs[m][cur[m]] <= cs[c][cur[c]]
    ensures BelowFrontier(cs[m][cur[m]], cs, cur)
  {
    forall c, j | 0 <= c < |cs| && cur[c] <= j < |cs[c]| ensures cs[m][cur[m]] <= cs[c][j] {
      assert Ascending(cs[c]);
      assert cs[c][cur[c]] <= cs[c][j];
    }
  }

  lemma BelowFrontierAdvance(x: int, cs: seq<seq<int>>, cur: seq<int>, m: nat)
    requires ValidCursors(cs, cur) && m < |cs| && cur[m] < |cs[m]|
    requires BelowFrontier(x, cs, cur)
    ensures ValidCursors(cs, cur[m := cur[m] + 1])
    ensures BelowFrontier(x, cs, cur[m := cur[m] + 1])
  {
    AdvanceValid(cs, cur, m);
  }

  /** Chooses the chunk whose head is smallest, the first such chunk on ties
      (as the heap does, whose entries are ordered by value, then by chunk). */
  method MinHead(cs: seq<seq<int>>, cur: seq<int>) returns (m: nat)
    requires ValidCursors(cs, cur) && FrontierNonEmpty(cs, cur)
    ensures m < |cs| && cur[m] < |cs[m]|
    ensures forall c :: 0 <= c < |cs| && cur[c] < |cs[c]| ==> cs[m][cur[m]] <= cs[c][cur[c]]
    ensures forall c :: 0 <= c < m && cur[c] < |cs[c]| ==> cs[m][cur[m]] < cs[c][cur[c]]
  {
    var found := false;
    m := 0;
    var c := 0;
    while c < |cs|
      invariant 0 <= c <= |cs|
      invariant !found ==> forall d :: 0 <= d < c ==> cur[d] == |cs[d]|
      invariant found ==> m < c && cur[m] < |cs[m]|
      invariant found ==> forall d :: 0 <= d < c && cur[d] < |cs[d]| ==> cs[m][cur[m]] <= cs[d][cur[d]]
      invariant found ==> forall d :: 0 <= d < m && cur[d] < |cs[d]| ==> cs[m][cur[m]] < cs[d][cur[d]]
    {
      if cur[c] < |cs[c]| && (!found || cs[c][cur[c]] < cs[m][cur[m]]) {
        m, found := c, true;
      }
      c := c + 1;
    }
    if !found {
      assert false;
    }
  }

  /** The loop invariant of the frontier merge: the output so far is
      ascending, it and the unconsumed elements together are the input, and
      nothing unconsumed is smaller than the last output element. */
  predicate MergeInvariant(cs: seq<seq<int>>, cur: seq<int>, out: seq<int>) {
    && ValidCursors(cs, cur)
    && Ascending(out)
    && multiset(out) + multiset(Rest(cs, cur, 0)) == multiset(Flatten(cs))
    && (out != [] ==> BelowFrontier(out[|out| - 1], cs, cur))
  }

  /** Emitting the smallest head and advancing its cursor keeps the invariant
      and consumes one element. */
  lemma MergeStep(cs: seq<seq<int>>, cur: seq<int>, out: seq<int>, m: nat)
    requires AllAscending(cs) && MergeInvariant(cs, cur, out)
    requires m < |cs| && cur[m] < |cs[m]|
    requires forall c :: 0 <= c < |cs| && cur[c] < |cs[c]| ==> cs[m][cur[m]] <= cs[c][cur[c]]
    ensures ValidCursors(cs, cur[m := cur[m] + 1])
    ensures MergeInvariant(cs, cur[m := cur[m] + 1], out + [cs[m][cur[m]]])
    ensures |Rest(cs, cur[m := cur[m] + 1], 0)| < |Rest(cs, cur, 0)|
  {
    var x := cs[m][cur[m]];
    var cur' := cur[m := cur[m] + 1];
    RestAdvance(cs, cur, m, 0);
    MinHeadBelowFrontier(cs, cur, m);
    SnocAscending(out, x);
    BelowFrontierAdvance(x, cs, cur, m);
    assert multiset(out + [x]) == multiset(out) + multiset{x};
    assert |multiset(Rest(cs, cur, 0))| == 1 + |multiset(Rest(cs, cur', 0))|;
  }

  /** The frontier merge: repeatedly take the smallest head among the chunks
      that are not exhausted and advance that chunk's cursor. On sorted
      chunks it returns the sorted concatenation, which is MergeAll. */
  method FrontierMerge(cs: seq<seq<int>>) returns (out: seq<int>)
    requires AllAscending(cs)
    ensures Ascending(out)
    ensures multiset(out) == multiset(Flatten(cs))
    ensures out == MergeAll(cs)
  {
    var cur := seq(|cs|, _ => 0);
    out := [];
    RestInitial(cs, cur, 0);
    assert cs[0..] == cs;
    while FrontierNonEmpty(cs, cur)
      invariant MergeInvariant(cs, cur, out)
      decreases |Rest(cs, cur, 0)|
    {
      var m := MinHead(cs, cur);
      MergeStep(cs, cur, out, m);
      out := out + [cs[m][cur[m]]];
      cur := cur[m := cur[m] + 1];
    }
    RestExhausted(cs, cur, 0);
    AscendingPermutationUnique(out, MergeAll(cs));
  }
}

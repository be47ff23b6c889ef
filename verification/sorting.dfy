/** Bubble sort and merge sort (algorithms.py).

    The source sorts lists of floats by comparing the elements themselves.
    Here the elements are of any type T and are compared through a real
    key. With T = real and the identity key this is the source's comparison
    of floats, taken as exact reals (so without NaN); a non-trivial key
    makes the stability of the merge observable. */
module Sorting {

  /** Python compares plain numbers: each number is its own sort key. */
  function Value(x: real): real
  {
    x
  }

  /** The keys of `s` never decrease from left to right. */
  predicate SortedBy<T>(s: seq<T>, key: T -> real)
  {
    forall i, j :: 0 <= i < j < |s| ==> key(s[i]) <= key(s[j])
  }

  /** The elements of `s` whose key is `k`, in their order in `s`. */
  function WithKey<T>(s: seq<T>, key: T -> real, k: real): (r: seq<T>)
    ensures |r| <= |s|
  {
    if |s| == 0 then []
    else (if key(s[0]) == k then [s[0]] else []) + WithKey(s[1..], key, k)
  }

  /** Every element of `s` has a key of at least `b`. */
  predicate KeysAtLeast<T>(s: seq<T>, key: T -> real, b: real)
  {
    forall i :: 0 <= i < |s| ==> b <= key(s[i])
  }

  /** `_merge`: repeatedly emit the smaller head, the left one on ties, then
      the rest of whichever list remains. The source's loop is written as
      recursion, one call per loop iteration. */
  function Merge<T(==)>(left: seq<T>, right: seq<T>, key: T -> real): (r: seq<T>)
    ensures |r| == |left| + |right|
    ensures multiset(r) == multiset(left) + multiset(right)
    decreases |left| + |right|
  {
    if |left| == 0 then right
    else if |right| == 0 then left
    else if key(left[0]) <= key(right[0]) then
      assert left == [left[0]] + left[1..];
      [left[0]] + Merge(left[1..], right, key)
    else
      assert right == [right[0]] + right[1..];
      [right[0]] + Merge(left, right[1..], key)
  }

  lemma {:induction false} WithKeyAppend<T>(a: seq<T>, b: seq<T>, key: T -> real, k: real)
    ensures WithKey(a + b, key, k) == WithKey(a, key, k) + WithKey(b, key, k)
    decreases |a|
  {
    if |a| == 0 {
      assert a + b == b;
    } else {
      var h := if key(a[0]) == k then [a[0]] else [];
      assert (a + b)[0] == a[0];
      assert (a + b)[1..] == a[1..] + b;
      assert WithKey(a + b, key, k) == h + WithKey(a[1..] + b, key, k);
      WithKeyAppend(a[1..], b, key, k);
      assert WithKey(a, key, k) == h + WithKey(a[1..], key, k);
    }
  }

  /** Every element of `s` has a key strictly above `b`. */
  predicate KeysAbove<T>(s: seq<T>, key: T -> real, b: real)
  {
    forall i :: 0 <= i < |s| ==> b < key(s[i])
  }

  /** No element of a list whose keys all exceed `k` has key `k`. */
  lemma {:induction false} WithKeyAbove<T>(s: seq<T>, key: T -> real, k: real)
    requires KeysAbove(s, key, k)
    ensures WithKey(s, key, k) == []
    decreases |s|
  {
    if |s| > 0 {
      WithKeyAbove(s[1..], key, k);
    }
  }

  lemma SortedTail<T>(s: seq<T>, key: T -> real)
    requires |s| > 0 && SortedBy(s, key)
    ensures SortedBy(s[1..], key)
    ensures KeysAtLeast(s[1..], key, key(s[0]))
  {
  }

  /** Every element of a merge comes from one of its inputs, so a lower
      bound on both inputs' keys bounds the merge's keys. */
  lemma {:induction false} MergeKeysAtLeast<T>(left: seq<T>, right: seq<T>, key: T -> real, b: real)
    requires KeysAtLeast(left, key, b) && KeysAtLeast(right, key, b)
    ensures KeysAtLeast(Merge(left, right, key), key, b)
  {
    var r := Merge(left, right, key);
    forall i | 0 <= i < |r|
      ensures b <= key(r[i])
    {
      assert r[i] in multiset(left) + multiset(right);
      if r[i] in multiset(left) {
        var j :| 0 <= j < |left| && left[j] == r[i];
      } else {
        var j :| 0 <= j < |right| && right[j] == r[i];
      }
    }
  }

  /** Merging two sorted lists yields a sorted list (algorithms.py:55-64). */
  lemma {:induction false} MergeSorted<T>(left: seq<T>, right: seq<T>, key: T -> real)
    requires SortedBy(left, key) && SortedBy(right, key)
    ensures SortedBy(Merge(left, right, key), key)
    decreases |left| + |right|
  {
    if |left| == 0 || |right| == 0 {
    } else if key(left[0]) <= key(right[0]) {
      SortedTail(left, key);
      MergeSorted(left[1..], right, key);
      assert KeysAtLeast(right, key, key(left[0]));
      MergeKeysAtLeast(left[1..], right, key, key(left[0]));
    } else {
      SortedTail(right, key);
      MergeSorted(left, right[1..], key);
      assert KeysAtLeast(left, key, key(right[0]));
      MergeKeysAtLeast(left, right[1..], key, key(right[0]));
    }
  }

  /** Stability of `_merge`: among elements with equal keys, all of the left
      list's come first, each list's in its own order (algorithms.py:56-58). */
  lemma {:induction false} MergeStable<T>(left: seq<T>, right: seq<T>, key: T -> real, k: real)
    requires SortedBy(left, key) && SortedBy(right, key)
    ensures WithKey(Merge(left, right, key), key, k) == WithKey(left, key, k) + WithKey(right, key, k)
    decreases |left| + |right|
  {
    if |left| == 0 {
      assert WithKey(left, key, k) == [];
    } else if |right| == 0 {
      assert WithKey(right, key, k) == [];
    } else if key(left[0]) <= key(right[0]) {
      SortedTail(left, key);
      MergeStable(left[1..], right, key, k);
      MergeStableLeftStep(left, right, key, k);
    } else {
      SortedTail(right, key);
      MergeStable(left, right[1..], key, k);
      MergeStableRightStep(left, right, key, k);
    }
  }

  /** Emitting the left head keeps the equal-key order: the head is the
      first of the left list's elements with its key. */
  lemma MergeStableLeftStep<T>(left: seq<T>, right: seq<T>, key: T -> real, k: real)
    requires |left| > 0 && |right| > 0 && key(left[0]) <= key(right[0])
    requires WithKey(Merge(left[1..], right, key), key, k) == WithKey(left[1..], key, k) + WithKey(right, key, k)
    ensures WithKey(Merge(left, right, key), key, k) == WithKey(left, key, k) + WithKey(right, key, k)
  {
    var m := Merge(left[1..], right, key);
    assert Merge(left, right, key) == [left[0]] + m;
    assert ([left[0]] + m)[1..] == m;
  }

  /** Emitting the right head, strictly below every left key, keeps the
      equal-key order: no left element shares its key. */
  lemma MergeStableRightStep<T>(left: seq<T>, right: seq<T>, key: T -> real, k: real)
    requires |left| > 0 && |right| > 0 && key(right[0]) < key(left[0]) && SortedBy(left, key)
    requires WithKey(Merge(left, right[1..], key), key, k) == WithKey(left, key, k) + WithKey(right[1..], key, k)
    ensures WithKey(Merge(left, right, key), key, k) == WithKey(left, key, k) + WithKey(right, key, k)
  {
    var m := Merge(left, right[1..], key);
    var h := if key(right[0]) == k then [right[0]] else [];
    assert Merge(left, right, key) == [right[0]] + m;
    assert WithKey([right[0]] + m, key, k) == h + WithKey(m, key, k) by {
      assert ([right[0]] + m)[0] == right[0];
      assert ([right[0]] + m)[1..] == m;
    }
    assert WithKey(right, key, k) == h + WithKey(right[1..], key, k);
    var wl, wr := WithKey(left, key, k), WithKey(right[1..], key, k);
    if key(right[0]) == k {
      assert KeysAbove(left, key, k);
      WithKeyAbove(left, key, k);
      assert wl + wr == wr;
      assert h + wr == wl + (h + wr);
    } else {
      assert h + WithKey(m, key, k) == wl + wr;
      assert h + wr == wr;
    }
  }

  /** `merge_sort`: split at `len // 2`, sort both halves, merge them. */
  function MergeSort<T(==)>(s: seq<T>, key: T -> real): (r: seq<T>)
    ensures multiset(r) == multiset(s)
    ensures SortedBy(r, key)
    ensures |s| <= 1 ==> r == s
    decreases |s|
  {
    if |s| <= 1 then s
    else
      var mid := |s| / 2;
      var left := MergeSort(s[..mid], key);
      var right := MergeSort(s[mid..], key);
      MergeHalves(s, mid, left, right, key);
      Merge(left, right, key)
  }

  /** Merging the sorted halves of `s` gives a sorted permutation of `s`. */
  lemma MergeHalves<T>(s: seq<T>, mid: nat, left: seq<T>, right: seq<T>, key: T -> real)
    requires mid <= |s|
    requires multiset(left) == multiset(s[..mid]) && multiset(right) == multiset(s[mid..])
    requires SortedBy(left, key) && SortedBy(right, key)
    ensures multiset(Merge(left, right, key)) == multiset(s)
    ensures SortedBy(Merge(left, right, key), key)
  {
    assert s == s[..mid] + s[mid..];
    MergeSorted(left, right, key);
  }

  /** Merge sort is stable: for every key value, the elements carrying it
      come out in their input order. */
  lemma {:induction false} MergeSortStable<T>(s: seq<T>, key: T -> real, k: real)
    ensures WithKey(MergeSort(s, key), key, k) == WithKey(s, key, k)
    decreases |s|
  {
    if |s| > 1 {
      var front, back := s[..|s| / 2], s[|s| / 2..];
      MergeSortStable(front, key, k);
      MergeSortStable(back, key, k);
      assert MergeSort(s, key) == Merge(MergeSort(front, key), MergeSort(back, key), key);
      MergeStable(MergeSort(front, key), MergeSort(back, key), key, k);
      WithKeySplit(s, |s| / 2, key, k);
    }
  }

  lemma WithKeySplit<T>(s: seq<T>, mid: nat, key: T -> real, k: real)
    requires mid <= |s|
    ensures WithKey(s, key, k) == WithKey(s[..mid], key, k) + WithKey(s[mid..], key, k)
  {
    assert s[..mid] + s[mid..] == s;
    WithKeyAppend(s[..mid], s[mid..], key, k);
  }

  /** Every element of `s` before position `m` has a key no larger than any
      element from position `m` on. */
  predicate Partitioned<T>(s: seq<T>, key: T -> real, m: int)
  {
    forall p, q :: 0 <= p < m <= q < |s| ==> key(s[p]) <= key(s[q])
  }

  /** The keys of `s` from position `m` on never decrease. */
  predicate SortedFrom<T>(s: seq<T>, key: T -> real, m: nat)
  {
    forall p, q :: m <= p < q < |s| ==> key(s[p]) <= key(s[q])
  }

  /** One step of the inner loop of `bubble_sort` at position j: swap the
      pair at j, j + 1 when it is out of order. The step only rearranges
      that pair, and it carries the largest key seen so far one place on. */
  function PassStep<T(==)>(s: seq<T>, key: T -> real, j: nat): (r: seq<T>)
    requires j + 1 < |s|
    ensures |r| == |s| && multiset(r) == multiset(s)
    ensures forall k :: 0 <= k < |s| && k != j && k != j + 1 ==> r[k] == s[k]
    ensures key(r[j]) <= key(r[j + 1])
    ensures {r[j], r[j + 1]} == {s[j], s[j + 1]}
    ensures (forall p :: 0 <= p <= j ==> key(s[p]) <= key(s[j])) ==>
            forall p :: 0 <= p <= j + 1 ==> key(r[p]) <= key(r[j + 1])
  {
    if key(s[j]) > key(s[j + 1]) then
      var r := s[j := s[j + 1]][j + 1 := s[j]];
      assert r == s[..j] + [s[j + 1], s[j]] + s[j + 2..];
      assert s == s[..j] + [s[j], s[j + 1]] + s[j + 2..];
      r
    else s
  }

  /** One pass of the inner loop of `bubble_sort` over positions 0..last:
      each adjacent pair out of order is swapped, which carries the largest
      key of that prefix to position `last` and leaves the rest alone. */
  method BubblePass<T(==)>(s: seq<T>, key: T -> real, last: nat) returns (r: seq<T>)
    requires last < |s|
    requires Partitioned(s, key, last + 1) && SortedFrom(s, key, last + 1)
    ensures |r| == |s| && multiset(r) == multiset(s)
    ensures r[last + 1..] == s[last + 1..]
    ensures Partitioned(r, key, last) && SortedFrom(r, key, last)
  {
    r := s;
    for j := 0 to last
      invariant |r| == |s| && multiset(r) == multiset(s)
      invariant r[last + 1..] == s[last + 1..]
      invariant Partitioned(r, key, last + 1)
      invariant forall p :: 0 <= p <= j ==> key(r[p]) <= key(r[j])
    {
      var next := PassStep(r, key, j);
      PassStepFrame(s, r, key, j, last);
      r := next;
    }
  }

  /** A compare-and-swap inside positions 0..last leaves the suffix after
      `last` alone, so the suffix still holds the largest keys. */
  lemma PassStepFrame<T>(s: seq<T>, r: seq<T>, key: T -> real, j: nat, last: nat)
    requires j < last < |r| == |s|
    requires r[last + 1..] == s[last + 1..] && Partitioned(r, key, last + 1)
    ensures PassStep(r, key, j)[last + 1..] == s[last + 1..]
    ensures Partitioned(PassStep(r, key, j), key, last + 1)
  {
    var next := PassStep(r, key, j);
    assert forall q :: last + 1 <= q < |r| ==> next[q] == r[q];
    assert forall p :: 0 <= p < last + 1 ==> next[p] in {r[j], r[j + 1]} || next[p] == r[p];
    forall p, q | 0 <= p < last + 1 <= q < |next|
      ensures key(next[p]) <= key(next[q])
    {
      if next[p] != r[p] {
        assert next[p] in {r[j], r[j + 1]};
      }
    }
  }

  /** `bubble_sort`: the input is a value, so the caller's list cannot be
      changed; the passes work on a private copy. After pass `i` the last
      `i + 1` positions hold the largest keys, in order. */
  method BubbleSort<T(==)>(s: seq<T>, key: T -> real) returns (r: seq<T>)
    ensures SortedBy(r, key)
    ensures multiset(r) == multiset(s)
  {
    r := s;
    var n := |s|;
    for i := 0 to n
      invariant |r| == n && multiset(r) == multiset(s)
      invariant Partitioned(r, key, n - i) && SortedFrom(r, key, n - i)
    {
      r := BubblePass(r, key, n - i - 1);
    }
  }

  /** The head of a sorted list of numbers is its least element. */
  lemma SortedHeadLeast(a: seq<real>, x: real)
    requires SortedBy(a, Value) && x in multiset(a)
    ensures |a| > 0 && a[0] <= x
  {
    assert x in a;
    var i :| 0 <= i < |a| && a[i] == x;
    assert Value(a[0]) <= Value(a[i]);
  }

  /** Taking the head off both of two lists with the same elements and the
      same head leaves tails with the same elements. */
  lemma TailsSameElements(a: seq<real>, b: seq<real>)
    requires |a| > 0 && |b| > 0 && a[0] == b[0] && multiset(a) == multiset(b)
    ensures multiset(a[1..]) == multiset(b[1..])
  {
    assert a == [a[0]] + a[1..];
    assert b == [b[0]] + b[1..];
    assert multiset(a[1..]) == multiset(a) - multiset{a[0]};
    assert multiset(b[1..]) == multiset(b) - multiset{b[0]};
  }

  /** A list of numbers has only one sorted arrangement: two sorted lists
      holding the same numbers are equal. */
  lemma {:induction false} SortedPermutationsEqual(a: seq<real>, b: seq<real>)
    requires SortedBy(a, Value) && SortedBy(b, Value)
    requires multiset(a) == multiset(b)
    ensures a == b
    decreases |a|
  {
    if |a| == 0 {
      assert |b| == |multiset(b)| == 0;
    } else {
      SortedHeadLeast(b, a[0]);
      SortedHeadLeast(a, b[0]);
      TailsSameElements(a, b);
      SortedTail(a, Value);
      SortedTail(b, Value);
      SortedPermutationsEqual(a[1..], b[1..]);
      assert a == [a[0]] + a[1..];
      assert b == [b[0]] + b[1..];
    }
  }

  /** On plain numbers the two sorts agree: bubble sort returns exactly the
      list merge sort returns. */
  method BubbleSortNumbers(s: seq<real>) returns (r: seq<real>)
    ensures r == MergeSort(s, Value)
  {
    r := BubbleSort(s, Value);
    SortedPermutationsEqual(r, MergeSort(s, Value));
  }
}

/** Linear and binary search (algorithms.py). Indices are Python list
    indices; -1 is the source's "not found" answer. */
module Searching {
  import Sorting

  /** The values of `s` never decrease from left to right. */
  predicate Sorted(s: seq<real>)
  {
    Sorting.SortedBy(s, Sorting.Value)
  }

  /** `linear_search`: the first index holding `target`, or -1 when there is
      none. */
  method LinearSearch<T(==)>(a: seq<T>, target: T) returns (r: int)
    ensures -1 <= r < |a|
    ensures r == -1 <==> target !in a
    ensures 0 <= r ==> a[r] == target
    ensures 0 <= r ==> forall j :: 0 <= j < r ==> a[j] != target
  {
    for i := 0 to |a|
      invariant forall j :: 0 <= j < i ==> a[j] != target
    {
      if a[i] == target {
        return i;
      }
    }
    return -1;
  }

  /** `binary_search`: halve the window [left, right] around the midpoint
      until the target is found or the window is empty. The result is always
      -1 or an index holding `target`; on a sorted list it is -1 exactly when
      `target` is absent. */
  method BinarySearch(a: seq<real>, target: real) returns (r: int)
    ensures -1 <= r < |a|
    ensures 0 <= r ==> a[r] == target
    ensures Sorted(a) ==> (r == -1 <==> target !in a)
  {
    var left, right := 0, |a| - 1;
    while left <= right
      invariant 0 <= left <= right + 1 <= |a|
      invariant Sorted(a) ==> forall k :: 0 <= k < |a| && a[k] == target ==> left <= k <= right
      decreases right - left
    {
      // left + right >= 0 here, so Python's floor division and Dafny's agree
      var mid := (left + right) / 2;
      if a[mid] == target {
        return mid;
      } else if a[mid] < target {
        left := mid + 1;
      } else {
        right := mid - 1;
      }
    }
    return -1;
  }
}

/** Reductions over a sequence of records, the operations pandas offers as
    `sum`, `unique`/`nunique`, `groupby(...).sum()` and `value_counts()`.
    A record's group is given by a key function and the value summed by a
    value function. Sequences are taken apart from their last element. */
module Groups {

  /** No element occurs twice. */
  predicate NoDup<K(==)>(s: seq<K>)
  {
    forall i, j :: 0 <= i < j < |s| ==> s[i] != s[j]
  }

  /** The total of `f` over `s`. */
  function Sum<T>(s: seq<T>, f: T -> int): int
    decreases |s|
  {
    if |s| == 0 then 0 else Sum(s[..|s| - 1], f) + f(s[|s| - 1])
  }

  /** Totals add up over concatenation: the total of two tables is the sum
      of their totals. */
  lemma {:induction false} SumAppend<T>(a: seq<T>, b: seq<T>, f: T -> int)
    ensures Sum(a + b, f) == Sum(a, f) + Sum(b, f)
    decreases |b|
  {
    if |b| > 0 {
      var init := b[..|b| - 1];
      assert (a + b)[..|a + b| - 1] == a + init;
      SumAppend(a, init, f);
    } else {
      assert a + b == a;
    }
  }

  /** Some element of `s` has key `k`. */
  predicate Occurs<T, K(==,!new)>(s: seq<T>, keyOf: T -> K, k: K)
  {
    exists i :: 0 <= i < |s| && keyOf(s[i]) == k
  }

  /** The keys that occur in `s`. */
  function KeySet<T, K(==,!new)>(s: seq<T>, keyOf: T -> K): (r: set<K>)
    ensures forall k :: k in r <==> Occurs(s, keyOf, k)
  {
    set i | 0 <= i < |s| :: keyOf(s[i])
  }

  /** The total of `f` over the elements of `s` whose key is `k`. */
  function GroupSum<T, K(==,!new)>(s: seq<T>, keyOf: T -> K, f: T -> int, k: K): int
    decreases |s|
  {
    if |s| == 0 then 0
    else GroupSum(s[..|s| - 1], keyOf, f, k) + (if keyOf(s[|s| - 1]) == k then f(s[|s| - 1]) else 0)
  }

  /** The keys occurring in `s` are those occurring before its last
      element and that element's key. */
  lemma OccursSnoc<T, K(!new)>(s: seq<T>, keyOf: T -> K)
    requires |s| > 0
    ensures forall j :: Occurs(s, keyOf, j) <==> Occurs(s[..|s| - 1], keyOf, j) || j == keyOf(s[|s| - 1])
  {
    var init, k := s[..|s| - 1], keyOf(s[|s| - 1]);
    forall j | Occurs(s, keyOf, j) ensures Occurs(init, keyOf, j) || j == k {
      var i :| 0 <= i < |s| && keyOf(s[i]) == j;
      if i < |s| - 1 {
        assert keyOf(init[i]) == j;
      }
    }
    forall j | Occurs(init, keyOf, j) ensures Occurs(s, keyOf, j) {
      var i :| 0 <= i < |init| && keyOf(init[i]) == j;
      assert keyOf(s[i]) == j;
    }
  }

  /** `groupby(key)[value].sum()`: one entry per key that occurs in `s`,
      holding the total of `f` over that key's elements. Built one element
      at a time: an element adds its value to its key's entry, creating
      the entry at 0 when the key is new. */
  function GroupMap<T, K(==,!new)>(s: seq<T>, keyOf: T -> K, f: T -> int): (r: map<K, int>)
    ensures forall k :: k in r <==> Occurs(s, keyOf, k)
    ensures r.Keys == KeySet(s, keyOf)
    ensures forall k :: k in r ==> r[k] == GroupSum(s, keyOf, f, k)
    decreases |s|
  {
    if |s| == 0 then map[]
    else
      var init, x := s[..|s| - 1], s[|s| - 1];
      var m := GroupMap(init, keyOf, f);
      var k := keyOf(x);
      OccursSnoc(s, keyOf);
      GroupSumAbsent(init, keyOf, f, k);
      AddTo(m, k, f(x))
  }

  /** The entry of `k` raised by `v`, created at 0 when absent. */
  function AddTo<K>(m: map<K, int>, k: K, v: int): map<K, int>
  {
    m[k := (if k in m then m[k] else 0) + v]
  }

  /** The distinct keys of `s` in order of first occurrence (`unique()`),
      the encounter order pandas keeps; `groupby` instead sorts its keys,
      which the unordered map of `GroupMap` does not record. */
  function KeysOf<T, K(==,!new)>(s: seq<T>, keyOf: T -> K): (r: seq<K>)
    ensures NoDup(r)
    ensures forall k :: k in r <==> Occurs(s, keyOf, k)
    decreases |s|
  {
    if |s| == 0 then []
    else
      var ks := KeysOf(s[..|s| - 1], keyOf);
      var k := keyOf(s[|s| - 1]);
      OccursSnoc(s, keyOf);
      if k in ks then ks else ks + [k]
  }

  /** A group of a key that does not occur is empty. */
  lemma {:induction false} GroupSumAbsent<T, K(!new)>(s: seq<T>, keyOf: T -> K, f: T -> int, k: K)
    ensures !Occurs(s, keyOf, k) ==> GroupSum(s, keyOf, f, k) == 0
    decreases |s|
  {
    if |s| > 0 && !Occurs(s, keyOf, k) {
      var init := s[..|s| - 1];
      forall i | 0 <= i < |init|
        ensures keyOf(init[i]) != k
      {
        assert init[i] == s[i];
      }
      GroupSumAbsent(init, keyOf, f, k);
    }
  }

  /** A group of a key that occurs has as many members as the key has
      occurrences, so counting members with `f = 1` gives at least one. */
  lemma {:induction false} GroupCountPositive<T, K(!new)>(s: seq<T>, keyOf: T -> K, f: T -> int, k: K)
    requires Occurs(s, keyOf, k)
    requires forall x :: f(x) == 1
    ensures GroupSum(s, keyOf, f, k) >= 1
    decreases |s|
  {
    var init := s[..|s| - 1];
    GroupSumNonNegative(init, keyOf, f, k);
    if keyOf(s[|s| - 1]) != k {
      var i :| 0 <= i < |s| && keyOf(s[i]) == k;
      assert keyOf(init[i]) == k;
      GroupCountPositive(init, keyOf, f, k);
    }
  }

  lemma {:induction false} GroupSumNonNegative<T, K(!new)>(s: seq<T>, keyOf: T -> K, f: T -> int, k: K)
    requires forall x :: f(x) >= 0
    ensures GroupSum(s, keyOf, f, k) >= 0
    decreases |s|
  {
    if |s| > 0 {
      GroupSumNonNegative(s[..|s| - 1], keyOf, f, k);
    }
  }

  /** Counting members (`f` = 1 for every element, `size()` and
      `value_counts()`) gives the number of positions holding the key;
      `p` is the test "has key `k`". */
  lemma {:induction false} GroupCountIsPositions<T, K(!new)>(s: seq<T>, keyOf: T -> K, f: T -> int, k: K, p: T -> bool)
    requires forall x :: f(x) == 1
    requires forall x :: p(x) <==> keyOf(x) == k
    ensures GroupSum(s, keyOf, f, k) == |Where(s, p)|
    decreases |s|
  {
    if |s| == 0 {
      assert Where(s, p) == {};
    } else {
      GroupCountIsPositions(s[..|s| - 1], keyOf, f, k, p);
      WhereSnoc(s, p);
    }
  }

  /** A total of non-negative values is non-negative. */
  lemma {:induction false} SumNonNegative<T>(s: seq<T>, f: T -> int)
    ensures (forall i :: 0 <= i < |s| ==> f(s[i]) >= 0) ==> Sum(s, f) >= 0
    decreases |s|
  {
    if |s| > 0 && forall i :: 0 <= i < |s| ==> f(s[i]) >= 0 {
      var init := s[..|s| - 1];
      assert forall i :: 0 <= i < |init| ==> init[i] == s[i];
      SumNonNegative(init, f);
    }
  }

  /** Boolean indexing `df[mask]`: the elements satisfying `p`, in their
      order in `s`. */
  function Filter<T(!new)>(s: seq<T>, p: T -> bool): (r: seq<T>)
    ensures forall x :: x in r <==> x in s && p(x)
    ensures |r| <= |s|
    decreases |s|
  {
    if |s| == 0 then []
    else
      var init, x := s[..|s| - 1], s[|s| - 1];
      assert s == init + [x];
      Filter(init, p) + (if p(x) then [x] else [])
  }

  /** A key occurs among the selected elements exactly when some selected
      element has it. */
  lemma FilterOccurs<T(!new), K(!new)>(s: seq<T>, p: T -> bool, keyOf: T -> K)
    ensures forall k :: Occurs(Filter(s, p), keyOf, k) <==> exists i :: 0 <= i < |s| && p(s[i]) && keyOf(s[i]) == k
  {
    var f := Filter(s, p);
    forall k | Occurs(f, keyOf, k)
      ensures exists i :: 0 <= i < |s| && p(s[i]) && keyOf(s[i]) == k
    {
      var j :| 0 <= j < |f| && keyOf(f[j]) == k;
      assert f[j] in f;
      var i :| 0 <= i < |s| && s[i] == f[j];
    }
    forall k | exists i :: 0 <= i < |s| && p(s[i]) && keyOf(s[i]) == k
      ensures Occurs(f, keyOf, k)
    {
      var i :| 0 <= i < |s| && p(s[i]) && keyOf(s[i]) == k;
      assert s[i] in s;
      var j :| 0 <= j < |f| && f[j] == s[i];
    }
  }

  /** The filter keeps each selected element as often as it occurs and
      drops every other element. */
  lemma {:induction false} FilterMultiset<T(!new)>(s: seq<T>, p: T -> bool)
    ensures forall x :: multiset(Filter(s, p))[x] == if p(x) then multiset(s)[x] else 0
    decreases |s|
  {
    if |s| > 0 {
      var init, y := s[..|s| - 1], s[|s| - 1];
      FilterMultiset(init, p);
      assert s == init + [y];
      assert Filter(s, p) == Filter(init, p) + (if p(y) then [y] else []);
    }
  }

  /** The positions of `s` whose element satisfies `p`. */
  function Where<T>(s: seq<T>, p: T -> bool): set<int>
  {
    set i | 0 <= i < |s| && p(s[i])
  }

  /** The positions selected in `s` are those selected before its last
      position, plus the last one when it is selected. */
  lemma WhereSnoc<T>(s: seq<T>, p: T -> bool)
    requires |s| > 0
    ensures |s| - 1 !in Where(s[..|s| - 1], p)
    ensures Where(s, p) == Where(s[..|s| - 1], p) + (if p(s[|s| - 1]) then {|s| - 1} else {})
  {
  }

  /** `len(df[mask])` is the number of positions the mask selects. */
  lemma {:induction false} FilterLength<T(!new)>(s: seq<T>, p: T -> bool)
    ensures |Filter(s, p)| == |Where(s, p)|
    decreases |s|
  {
    if |s| == 0 {
      assert Where(s, p) == {};
    } else {
      var init := s[..|s| - 1];
      FilterLength(init, p);
      WhereSnoc(s, p);
    }
  }

  /** Filtering commutes with concatenation, so together with its effect
      on single elements this fixes the filter's order. */
  lemma {:induction false} FilterAppend<T(!new)>(a: seq<T>, b: seq<T>, p: T -> bool)
    ensures Filter(a + b, p) == Filter(a, p) + Filter(b, p)
    decreases |b|
  {
    if |b| == 0 {
      assert a + b == a;
    } else {
      var init, x := b[..|b| - 1], b[|b| - 1];
      var tail := if p(x) then [x] else [];
      assert (a + b)[..|a + b| - 1] == a + init;
      assert (a + b)[|a + b| - 1] == x;
      assert Filter(a + b, p) == Filter(a + init, p) + tail;
      assert Filter(b, p) == Filter(init, p) + tail;
      FilterAppend(a, init, p);
    }
  }

  /** The sum of the values of a map. */
  ghost function MapSum<K>(m: map<K, int>): int
    decreases m.Keys
  {
    if m == map[] then 0
    else
      var k :| k in m;
      m[k] + MapSum(m - {k})
  }

  /** A map's sum can be taken apart at any of its keys, not only at the one
      `MapSum` happens to choose. */
  lemma {:induction false} MapSumRemove<K>(m: map<K, int>, k: K)
    requires k in m
    ensures MapSum(m) == m[k] + MapSum(m - {k})
    decreases m.Keys
  {
    var j :| j in m && MapSum(m) == m[j] + MapSum(m - {j});
    if j != k {
      MapSumRemove(m - {j}, k);
      MapSumRemove(m - {k}, j);
      assert m - {j} - {k} == m - {k} - {j};
    }
  }

  /** Setting a key to `v` replaces whatever that key contributed with `v`. */
  lemma MapSumUpdate<K>(m: map<K, int>, k: K, v: int)
    ensures MapSum(m[k := v]) == MapSum(m) - (if k in m then m[k] else 0) + v
  {
    MapSumRemove(m[k := v], k);
    assert m[k := v] - {k} == m - {k};
    if k in m {
      MapSumRemove(m, k);
    } else {
      assert m - {k} == m;
    }
  }

  /** Adding `v` to the entry of `k` (created at 0 when absent) adds `v`
      to the map's sum. */
  lemma MapSumAdd<K>(m: map<K, int>, k: K, v: int)
    ensures MapSum(AddTo(m, k, v)) == MapSum(m) + v
  {
    MapSumUpdate(m, k, (if k in m then m[k] else 0) + v);
  }

  /** Conservation: the group totals add up to the total over all of `s`. */
  lemma {:induction false} GroupMapTotal<T, K(!new)>(s: seq<T>, keyOf: T -> K, f: T -> int)
    ensures MapSum(GroupMap(s, keyOf, f)) == Sum(s, f)
    decreases |s|
  {
    if |s| > 0 {
      var init, x := s[..|s| - 1], s[|s| - 1];
      var m, k := GroupMap(init, keyOf, f), keyOf(x);
      GroupMapTotal(init, keyOf, f);
      MapSumAdd(m, k, f(x));
    }
  }

  /** A list without duplicates has as many elements as its set of values. */
  lemma {:induction false} NoDupCardinality<K>(s: seq<K>)
    requires NoDup(s)
    ensures |set x | x in s| == |s|
    decreases |s|
  {
    if |s| > 0 {
      var init := s[..|s| - 1];
      NoDupCardinality(init);
      assert (set x | x in s) == (set x | x in init) + {s[|s| - 1]};
      assert s[|s| - 1] !in init;
    }
  }

  /** The number of distinct keys (`nunique()`) is the size of the key set. */
  lemma DistinctCount<T, K(!new)>(s: seq<T>, keyOf: T -> K)
    ensures |KeysOf(s, keyOf)| == |KeySet(s, keyOf)|
  {
    var ks := KeysOf(s, keyOf);
    NoDupCardinality(ks);
    assert (set x | x in ks) == KeySet(s, keyOf);
  }

  /** A list without duplicates holds each value at most once. */
  lemma {:induction false} NoDupMultiplicity<K>(s: seq<K>, x: K)
    requires NoDup(s)
    ensures multiset(s)[x] <= 1
    decreases |s|
  {
    if |s| > 0 {
      var init := s[..|s| - 1];
      assert s == init + [s[|s| - 1]];
      NoDupMultiplicity(init, x);
    }
  }

  /** A value at two different positions occurs at least twice. */
  lemma TwoOccurrences<K>(b: seq<K>, i: nat, j: nat)
    requires i < j < |b| && b[i] == b[j]
    ensures multiset(b)[b[i]] >= 2
  {
    assert b == b[..j] + b[j..];
    assert b[i] in multiset(b[..j]);
    assert b[j..][0] == b[j];
  }

  /** Any rearrangement of a list without duplicates has none either. */
  lemma NoDupPermutation<K>(a: seq<K>, b: seq<K>)
    requires NoDup(a) && multiset(a) == multiset(b)
    ensures NoDup(b)
  {
    forall i, j | 0 <= i < j < |b|
      ensures b[i] != b[j]
    {
      NoDupMultiplicity(a, b[i]);
      if b[i] == b[j] {
        TwoOccurrences(b, i, j);
      }
    }
  }

  /** A subset is no larger than its superset. */
  lemma CardinalityOfSubset<K>(a: set<K>, b: set<K>)
    requires a <= b
    ensures |a| <= |b|
  {
    assert b == a + (b - a);
  }
}

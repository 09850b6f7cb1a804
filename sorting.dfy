/**
 * The two sorts `load_pos` performs: `list.sort(key=...)` (a stable sort by an integer key)
 * and `ranks[np.argsort(ranks)]` (gathering the ranks through a sorting permutation).
 */
module Sorting {

  predicate Ascending(s: seq<int>) { forall i, j :: 0 <= i < j < |s| ==> s[i] <= s[j] }

  predicate Distinct(s: seq<int>) { forall i, j :: 0 <= i < j < |s| ==> s[i] != s[j] }

  /** The key of every element, in order. */
  function Keys<T>(xs: seq<T>, key: T -> int): (ks: seq<int>)
    ensures |ks| == |xs| && forall i :: 0 <= i < |xs| ==> ks[i] == key(xs[i])
  {
    seq(|xs|, i requires 0 <= i < |xs| => key(xs[i]))
  }

  /** Inserts `x` before the first element whose key is not smaller, so equal keys keep their order. */
  function InsertBy<T>(x: T, ys: seq<T>, key: T -> int): (r: seq<T>)
    ensures |r| == |ys| + 1
  {
    if ys == [] || key(x) <= key(ys[0]) then [x] + ys else [ys[0]] + InsertBy(x, ys[1..], key)
  }

  /** Stable sort by key (insertion sort), the behaviour of Python's `list.sort(key=key)`. */
  function SortBy<T>(xs: seq<T>, key: T -> int): (r: seq<T>)
    ensures |r| == |xs|
  {
    if xs == [] then [] else InsertBy(xs[0], SortBy(xs[1..], key), key)
  }

  lemma {:induction false} InsertByAscending<T>(x: T, ys: seq<T>, key: T -> int)
    requires Ascending(Keys(ys, key))
    ensures |InsertBy(x, ys, key)| == |ys| + 1
    ensures Ascending(Keys(InsertBy(x, ys, key), key))
    ensures forall i :: 0 <= i < |InsertBy(x, ys, key)| ==>
              key(InsertBy(x, ys, key)[i]) == key(x) || (ys != [] && key(InsertBy(x, ys, key)[i]) >= key(ys[0]))
  {
    if ys != [] && key(x) > key(ys[0]) {
      InsertByAscending(x, ys[1..], key);
      assert Keys(ys[1..], key) == Keys(ys, key)[1..];
    }
  }

  lemma {:induction false} SortByAscending<T>(xs: seq<T>, key: T -> int)
    ensures |SortBy(xs, key)| == |xs|
    ensures Ascending(Keys(SortBy(xs, key), key))
  {
    if xs != [] {
      SortByAscending(xs[1..], key);
      InsertByAscending(xs[0], SortBy(xs[1..], key), key);
    }
  }

  lemma {:induction false} InsertByKeysMultiset<T>(x: T, ys: seq<T>, key: T -> int, f: T -> int)
    ensures multiset(Keys(InsertBy(x, ys, key), f)) == multiset(Keys(ys, f)) + multiset{f(x)}
  {
    if ys == [] || key(x) <= key(ys[0]) {
      assert Keys([x] + ys, f) == [f(x)] + Keys(ys, f);
    } else {
      InsertByKeysMultiset(x, ys[1..], key, f);
      assert Keys([ys[0]] + InsertBy(x, ys[1..], key), f) == [f(ys[0])] + Keys(InsertBy(x, ys[1..], key), f);
      assert Keys(ys, f) == [f(ys[0])] + Keys(ys[1..], f);
    }
  }

  /** Sorting by one key permutes the values of any other function of the elements. */
  lemma {:induction false} SortByKeysPermutation<T>(xs: seq<T>, key: T -> int, f: T -> int)
    ensures multiset(Keys(SortBy(xs, key), f)) == multiset(Keys(xs, f))
  {
    if xs != [] {
      SortByKeysPermutation(xs[1..], key, f);
      InsertByKeysMultiset(xs[0], SortBy(xs[1..], key), key, f);
      assert Keys(xs, f) == [f(xs[0])] + Keys(xs[1..], f);
    }
  }

  lemma {:induction false} InsertByMultiset<T>(x: T, ys: seq<T>, key: T -> int)
    ensures multiset(InsertBy(x, ys, key)) == multiset(ys) + multiset{x}
  {
    if ys != [] && key(x) > key(ys[0]) {
      InsertByMultiset(x, ys[1..], key);
      assert ys == [ys[0]] + ys[1..];
    }
  }

  /** The sorted list holds the same elements as the input, each as often. */
  lemma {:induction false} SortByPermutation<T>(xs: seq<T>, key: T -> int)
    ensures multiset(SortBy(xs, key)) == multiset(xs)
  {
    if xs != [] {
      SortByPermutation(xs[1..], key);
      InsertByMultiset(xs[0], SortBy(xs[1..], key), key);
      assert xs == [xs[0]] + xs[1..];
    }
  }

  lemma AscendingHeadIsLeast(a: seq<int>, x: int)
    requires Ascending(a) && x in multiset(a)
    ensures a[0] <= x
  {
    var i :| 0 <= i < |a| && a[i] == x;
  }

  lemma TailMultiset(a: seq<int>)
    requires a != []
    ensures multiset(a[1..]) == multiset(a) - multiset{a[0]}
  {
    assert a == [a[0]] + a[1..];
  }

  /** There is exactly one ascending arrangement of a multiset of integers. */
  lemma {:induction false} AscendingUnique(a: seq<int>, b: seq<int>)
    requires Ascending(a) && Ascending(b)
    requires multiset(a) == multiset(b)
    ensures a == b
    decreases |a|
  {
    if a == [] {
      assert |b| == |multiset(b)| == 0;
    } else {
      assert a[0] in multiset(b);
      assert b != [];
      AscendingHeadIsLeast(b, a[0]);
      AscendingHeadIsLeast(a, b[0]);
      var x := a[0];
      assert b[0] == x;
      TailMultiset(a);
      TailMultiset(b);
      var a', b' := a[1..], b[1..];
      assert Ascending(a') && Ascending(b');
      AscendingUnique(a', b');
      assert a == [x] + a' && b == [x] + b';
    }
  }

  /** `0, 1, …, n - 1`, the index array `np.argsort` permutes. */
  function Indices(n: nat): (s: seq<int>)
    ensures |s| == n && forall i :: 0 <= i < n ==> s[i] == i
  {
    seq(n, i => i)
  }

  /** The rank stored at an index, as a total key function. */
  function RankAt(r: seq<int>): int -> int
  {
    i => if 0 <= i < |r| then r[i] else 0
  }

  /** `np.argsort(r)`: a permutation of the indices of `r` that lists its values in ascending order. */
  function ArgSort(r: seq<int>): (idx: seq<int>)
    ensures |idx| == |r|
    ensures multiset(idx) == multiset(Indices(|r|))
    ensures forall k :: 0 <= k < |idx| ==> 0 <= idx[k] < |r|
    ensures Ascending(Keys(idx, RankAt(r)))
  {
    SortByPermutation(Indices(|r|), RankAt(r));
    SortByAscending(Indices(|r|), RankAt(r));
    var idx := SortBy(Indices(|r|), RankAt(r));
    assert forall k :: 0 <= k < |idx| ==> idx[k] in multiset(Indices(|r|));
    idx
  }

  /** `r[idx]`, numpy fancy indexing. */
  function Gather(r: seq<int>, idx: seq<int>): (g: seq<int>)
    requires forall k :: 0 <= k < |idx| ==> 0 <= idx[k] < |r|
    ensures |g| == |idx| && forall k :: 0 <= k < |idx| ==> g[k] == r[idx[k]]
  {
    seq(|idx|, k requires 0 <= k < |idx| => r[idx[k]])
  }

  /** `r[np.argsort(r)]` is `r` in ascending order. */
  lemma ArgSortSorts(r: seq<int>)
    ensures Ascending(Gather(r, ArgSort(r)))
    ensures multiset(Gather(r, ArgSort(r))) == multiset(r)
  {
    var n := |r|;
    var key := RankAt(r);
    assert Gather(r, ArgSort(r)) == Keys(SortBy(Indices(n), key), key);
    SortByKeysPermutation(Indices(n), key, key);
    assert Keys(Indices(n), key) == r;
  }

  /**
   * Sorting records by a key and sorting the keys alone agree: when the keys of `xs`
   * are `r`, the keys of `xs` sorted by key are `r[np.argsort(r)]`.
   */
  lemma SortByAgreesWithArgSort<T>(xs: seq<T>, key: T -> int, r: seq<int>)
    requires Keys(xs, key) == r
    ensures Keys(SortBy(xs, key), key) == Gather(r, ArgSort(r))
  {
    SortByAscending(xs, key);
    SortByKeysPermutation(xs, key, key);
    ArgSortSorts(r);
    AscendingUnique(Keys(SortBy(xs, key), key), Gather(r, ArgSort(r)));
  }
}

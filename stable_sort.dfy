/**
 * `Array.prototype.sort` with a comparator that orders elements by a key.
 * Since ES2019 the sort is stable, so its result is determined: it is the
 * result of a stable insertion sort.  `SortByKey` is that result as a
 * function; `SortInPlace` sorts an array in place and is proved to produce
 * it; `SortedCopy` is `[...s].sort(...)`, the copy-then-sort idiom.
 *
 * `lt(a, b)` says the comparator returns a negative number for keys `a`, `b`
 * (the element with key `a` must come first).
 */
module StableSort {
  import opened Sequences

  /** Irreflexive and transitive: what a consistent comparator gives. */
  ghost predicate StrictOrder<K(!new)>(lt: (K, K) -> bool) {
    && (forall x :: !lt(x, x))
    && (forall x, y, z :: lt(x, y) && lt(y, z) ==> lt(x, z))
  }

  /** Adjacent elements are in comparator order (no element must precede its predecessor). */
  ghost predicate SortedBy<T, K>(s: seq<T>, key: T -> K, lt: (K, K) -> bool) {
    forall i :: 0 <= i < |s| - 1 ==> !lt(key(s[i + 1]), key(s[i]))
  }

  /** The elements whose key is `k`. */
  function KeyIs<T, K(==)>(key: T -> K, k: K): T -> bool {
    x => key(x) == k
  }

  /**
   * Inserts `x` after the sorted prefix `t`, moving it left past every
   * element whose key it must precede (and past no element with an equal key).
   */
  function Insert<T, K>(t: seq<T>, x: T, key: T -> K, lt: (K, K) -> bool): (r: seq<T>)
    ensures |r| == |t| + 1
    decreases |t|
  {
    if t == [] || !lt(key(x), key(t[|t| - 1])) then t + [x]
    else Insert(t[..|t| - 1], x, key, lt) + [t[|t| - 1]]
  }

  /** The stable sort of `s` by `key` under `lt`. */
  function SortByKey<T, K>(s: seq<T>, key: T -> K, lt: (K, K) -> bool): (r: seq<T>)
    ensures |r| == |s|
    decreases |s|
  {
    if s == [] then []
    else Insert(SortByKey(s[..|s| - 1], key, lt), s[|s| - 1], key, lt)
  }

  lemma {:induction false} InsertPermutes<T, K>(t: seq<T>, x: T, key: T -> K, lt: (K, K) -> bool)
    ensures multiset(Insert(t, x, key, lt)) == multiset(t) + multiset{x}
    decreases |t|
  {
    if t != [] && lt(key(x), key(t[|t| - 1])) {
      var t' := t[..|t| - 1];
      assert t == t' + [t[|t| - 1]];
      InsertPermutes(t', x, key, lt);
    }
  }

  /** The sort result is a permutation of its input. */
  lemma {:induction false} SortPermutes<T, K>(s: seq<T>, key: T -> K, lt: (K, K) -> bool)
    ensures multiset(SortByKey(s, key, lt)) == multiset(s)
    decreases |s|
  {
    if s != [] {
      var s' := s[..|s| - 1];
      assert s == s' + [s[|s| - 1]];
      SortPermutes(s', key, lt);
      InsertPermutes(SortByKey(s', key, lt), s[|s| - 1], key, lt);
    }
  }

  lemma {:induction false} InsertMapPermutes<T, K, U>(t: seq<T>, x: T, key: T -> K, lt: (K, K) -> bool, f: T -> U)
    ensures multiset(MapSeq(Insert(t, x, key, lt), f)) == multiset(MapSeq(t, f)) + multiset{f(x)}
    decreases |t|
  {
    if t == [] || !lt(key(x), key(t[|t| - 1])) {
      MapSeqAppend(t, [x], f);
    } else {
      var t' := t[..|t| - 1];
      var y := t[|t| - 1];
      assert t == t' + [y];
      InsertMapPermutes(t', x, key, lt, f);
      MapSeqAppend(Insert(t', x, key, lt), [y], f);
      MapSeqAppend(t', [y], f);
    }
  }

  /** Sorting permutes any projection of the elements the same way. */
  lemma {:induction false} SortMapPermutes<T, K, U>(s: seq<T>, key: T -> K, lt: (K, K) -> bool, f: T -> U)
    ensures multiset(MapSeq(SortByKey(s, key, lt), f)) == multiset(MapSeq(s, f))
    decreases |s|
  {
    if s != [] {
      var s' := s[..|s| - 1];
      assert s == s' + [s[|s| - 1]];
      SortMapPermutes(s', key, lt, f);
      InsertMapPermutes(SortByKey(s', key, lt), s[|s| - 1], key, lt, f);
      MapSeqAppend(s', [s[|s| - 1]], f);
    }
  }

  lemma {:induction false} InsertLast<T, K>(t: seq<T>, x: T, key: T -> K, lt: (K, K) -> bool)
    ensures var r := Insert(t, x, key, lt);
      r[|r| - 1] == x || (t != [] && r[|r| - 1] == t[|t| - 1] && lt(key(x), key(t[|t| - 1])))
  {
  }

  lemma {:induction false} InsertSorted<T, K(!new)>(t: seq<T>, x: T, key: T -> K, lt: (K, K) -> bool)
    requires StrictOrder(lt) && SortedBy(t, key, lt)
    ensures SortedBy(Insert(t, x, key, lt), key, lt)
    decreases |t|
  {
    if t != [] && lt(key(x), key(t[|t| - 1])) {
      var t' := t[..|t| - 1];
      var y := t[|t| - 1];
      InsertSorted(t', x, key, lt);
      var u := Insert(t', x, key, lt);
      InsertLast(t', x, key, lt);
      assert !lt(key(y), key(u[|u| - 1])) by {
        if u[|u| - 1] == x {
          assert lt(key(x), key(y));
        } else {
          assert u[|u| - 1] == t[|t| - 2];
        }
      }
      assert Insert(t, x, key, lt) == u + [y];
    }
  }

  /** The sort result is sorted. */
  lemma {:induction false} SortSorted<T, K(!new)>(s: seq<T>, key: T -> K, lt: (K, K) -> bool)
    requires StrictOrder(lt)
    ensures SortedBy(SortByKey(s, key, lt), key, lt)
    decreases |s|
  {
    if s != [] {
      SortSorted(s[..|s| - 1], key, lt);
      InsertSorted(SortByKey(s[..|s| - 1], key, lt), s[|s| - 1], key, lt);
    }
  }

  lemma {:induction false} InsertStable<T(!new), K(!new)>(t: seq<T>, x: T, key: T -> K, lt: (K, K) -> bool, k: K)
    requires forall a :: !lt(a, a)
    ensures Filter(Insert(t, x, key, lt), KeyIs(key, k)) == Filter(t, KeyIs(key, k)) + Filter([x], KeyIs(key, k))
    decreases |t|
  {
    var p := KeyIs(key, k);
    if t == [] || !lt(key(x), key(t[|t| - 1])) {
      FilterAppend(t, [x], p);
    } else {
      var t' := t[..|t| - 1];
      var y := t[|t| - 1];
      assert t == t' + [y];
      InsertStable(t', x, key, lt, k);
      FilterAppend(Insert(t', x, key, lt), [y], p);
      FilterAppend(t', [y], p);
      assert lt(key(x), key(y));
      assert key(x) != key(y);
    }
  }

  /** Stability: among elements with equal keys the sort keeps the input order. */
  lemma {:induction false} SortStable<T(!new), K(!new)>(s: seq<T>, key: T -> K, lt: (K, K) -> bool, k: K)
    requires forall a :: !lt(a, a)
    ensures Filter(SortByKey(s, key, lt), KeyIs(key, k)) == Filter(s, KeyIs(key, k))
    decreases |s|
  {
    if s != [] {
      var s' := s[..|s| - 1];
      SortStable(s', key, lt, k);
      InsertStable(SortByKey(s', key, lt), s[|s| - 1], key, lt, k);
      assert s == s' + [s[|s| - 1]];
      FilterAppend(s', [s[|s| - 1]], KeyIs(key, k));
    }
  }

  /** Sorting an already sorted sequence returns it unchanged. */
  lemma {:induction false} SortIdempotent<T, K>(s: seq<T>, key: T -> K, lt: (K, K) -> bool)
    requires SortedBy(s, key, lt)
    ensures SortByKey(s, key, lt) == s
    decreases |s|
  {
    if s != [] {
      var s' := s[..|s| - 1];
      assert SortedBy(s', key, lt);
      SortIdempotent(s', key, lt);
      assert s == s' + [s[|s| - 1]];
    }
  }

  /** One shift of the inner loop of `SortInPlace`. */
  lemma InsertShift<T, K>(t: seq<T>, j: nat, x: T, key: T -> K, lt: (K, K) -> bool)
    requires 0 < j <= |t| && lt(key(x), key(t[j - 1]))
    ensures Insert(t[..j], x, key, lt) + t[j..] == Insert(t[..j - 1], x, key, lt) + t[j - 1..]
  {
    assert t[..j][..j - 1] == t[..j - 1];
    assert t[j - 1..] == [t[j - 1]] + t[j..];
  }

  /** Where the inner loop of `SortInPlace` stops, `x` goes. */
  lemma InsertStop<T, K>(t: seq<T>, j: nat, x: T, key: T -> K, lt: (K, K) -> bool)
    requires j <= |t| && (j == 0 || !lt(key(x), key(t[j - 1])))
    ensures Insert(t[..j], x, key, lt) == t[..j] + [x]
  {
  }

  /**
   * One pass of the insertion sort: moves `a[i]` left into the prefix
   * `a[..i]` and leaves the rest of the array alone.
   */
  method InsertInPlace<T, K>(a: array<T>, i: nat, key: T -> K, lt: (K, K) -> bool)
    requires i < a.Length
    modifies a
    ensures a[..i + 1] == Insert(old(a[..i]), old(a[i]), key, lt)
    ensures a[i + 1..] == old(a[i + 1..])
  {
    var x := a[i];
    ghost var t := a[..i];
    var j := i;
    while j > 0 && lt(key(x), key(a[j - 1]))
      invariant 0 <= j <= i
      invariant a[..j] == t[..j]
      invariant a[j + 1..i + 1] == t[j..i]
      invariant a[i + 1..] == old(a[i + 1..])
      invariant Insert(t, x, key, lt) == Insert(t[..j], x, key, lt) + t[j..]
    {
      InsertShift(t, j, x, key, lt);
      a[j] := a[j - 1];
      j := j - 1;
    }
    InsertStop(t, j, x, key, lt);
    a[j] := x;
    assert a[..i + 1] == t[..j] + [x] + t[j..i];
  }

  /** A stable insertion sort of `a` in place; the result is `SortByKey` of the old contents. */
  method SortInPlace<T, K>(a: array<T>, key: T -> K, lt: (K, K) -> bool)
    modifies a
    ensures a[..] == SortByKey(old(a[..]), key, lt)
  {
    ghost var s := a[..];
    var i := 0;
    while i < a.Length
      invariant 0 <= i <= a.Length
      invariant a[..i] == SortByKey(s[..i], key, lt)
      invariant a[i..] == s[i..]
    {
      InsertInPlace(a, i, key, lt);
      assert s[..i + 1][..i] == s[..i];
      i := i + 1;
    }
    assert a[..] == a[..a.Length];
    assert s == s[..a.Length];
  }

  /** `[...s].sort(cmp)`: sorts a fresh copy, so `s` itself is not reordered. */
  method SortedCopy<T, K>(s: seq<T>, key: T -> K, lt: (K, K) -> bool) returns (r: seq<T>)
    ensures r == SortByKey(s, key, lt)
  {
    var a := new T[|s|](i requires 0 <= i < |s| => s[i]);
    assert a[..] == s;
    SortInPlace(a, key, lt);
    r := a[..];
  }
}

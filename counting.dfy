/**
 * The counting `reduce` used by the charts and the statistics cards:
 * `acc[k] = (acc[k] || 0) + 1` over a list, with the accumulator object's
 * keys kept in insertion order, followed by `Object.entries(acc)`.
 */
module Counting {
  import opened Sequences
  import opened StableSort

  /** One `[key, count]` pair of `Object.entries(acc)`. */
  datatype Entry<K> = Entry(key: K, count: nat)

  function KeyOf<K>(e: Entry<K>): K {
    e.key
  }

  function CountOf<K>(e: Entry<K>): nat {
    e.count
  }

  /** How often each key occurs in `ks`: the dictionary a counting reduce builds. */
  function Occurrences<K(!new)>(ks: seq<K>): map<K, nat> {
    map k | k in ks :: multiset(ks)[k]
  }

  /** `Object.entries(acc)`: the keys in insertion order, each paired with its count. */
  function Entries<K>(order: seq<K>, counts: map<K, nat>): (r: seq<Entry<K>>)
    requires forall k :: k in order ==> k in counts
    ensures |r| == |order|
  {
    seq(|order|, i requires 0 <= i < |order| => Entry(order[i], counts[order[i]]))
  }

  /** The entries that counting `ks` yields: distinct keys in first-seen order with their counts. */
  function Tally<K(==,!new)>(ks: seq<K>): seq<Entry<K>> {
    Entries(Dedup(ks), Occurrences(ks))
  }

  /** The sum of the counts. */
  function SumCounts<K>(es: seq<Entry<K>>): nat
    decreases |es|
  {
    if es == [] then 0 else SumCounts(es[..|es| - 1]) + es[|es| - 1].count
  }

  lemma OccurrencesSnoc<K(!new)>(ks: seq<K>, k: K)
    ensures Occurrences(ks + [k]) == Occurrences(ks)[k := if k in ks then Occurrences(ks)[k] + 1 else 1]
  {
    var ks' := ks + [k];
    assert forall x :: x in ks' <==> x in ks || x == k;
    assert multiset(ks') == multiset(ks) + multiset{k};
  }

  /** One step of the accumulator loop: the key order and the dictionary after one more key. */
  lemma CountStep<K(!new)>(seen: seq<K>, k: K, order: seq<K>, counts: map<K, nat>)
    requires order == Dedup(seen) && counts == Occurrences(seen)
    ensures k in counts ==> order == Dedup(seen + [k]) && counts[k := counts[k] + 1] == Occurrences(seen + [k])
    ensures k !in counts ==> order + [k] == Dedup(seen + [k]) && counts[k := 1] == Occurrences(seen + [k])
  {
    OccurrencesSnoc(seen, k);
    DedupSnoc(seen, k);
  }

  /**
   * The accumulator loop: one pass over `items`, adding a key the first time
   * it is seen and incrementing its count on every occurrence.
   */
  method CountBy<T, K(==,!new)>(items: seq<T>, key: T -> K) returns (order: seq<K>, counts: map<K, nat>)
    ensures order == Dedup(MapSeq(items, key))
    ensures counts == Occurrences(MapSeq(items, key))
  {
    ghost var ks := MapSeq(items, key);
    order, counts := [], map[];
    var i := 0;
    while i < |items|
      invariant 0 <= i <= |items|
      invariant order == Dedup(ks[..i])
      invariant counts == Occurrences(ks[..i])
    {
      var k := key(items[i]);
      assert ks[..i + 1] == ks[..i] + [k];
      CountStep(ks[..i], k, order, counts);
      if k in counts {
        counts := counts[k := counts[k] + 1];
      } else {
        order := order + [k];
        counts := counts[k := 1];
      }
      i := i + 1;
    }
    assert ks[..|items|] == ks;
  }

  /** The sum of `counts` over the keys in `order`. */
  ghost function SumAt<K>(order: seq<K>, counts: map<K, nat>): int
    requires forall k :: k in order ==> k in counts
    decreases |order|
  {
    if order == [] then 0 else SumAt(order[..|order| - 1], counts) + counts[order[|order| - 1]]
  }

  lemma {:induction false} SumCountsEntries<K>(order: seq<K>, counts: map<K, nat>)
    requires forall k :: k in order ==> k in counts
    ensures SumCounts(Entries(order, counts)) == SumAt(order, counts)
    decreases |order|
  {
    if order != [] {
      var o' := order[..|order| - 1];
      SumCountsEntries(o', counts);
      assert Entries(order, counts)[..|order| - 1] == Entries(o', counts);
    }
  }

  /** Changing the count of one key changes the sum over a duplicate-free key list by the difference. */
  lemma {:induction false} SumAtUpdate<K(!new)>(order: seq<K>, counts: map<K, nat>, x: K, v: nat)
    requires forall k :: k in order ==> k in counts
    requires NoDup(order) && x in counts
    ensures SumAt(order, counts[x := v]) == SumAt(order, counts) + (if x in order then v - counts[x] else 0)
    decreases |order|
  {
    if order != [] {
      var o' := order[..|order| - 1];
      assert NoDup(o');
      SumAtUpdate(o', counts, x, v);
      assert order == o' + [order[|order| - 1]];
      assert x == order[|order| - 1] ==> x !in o';
    }
  }

  lemma {:induction false} SumAtFresh<K>(order: seq<K>, counts: map<K, nat>, x: K, v: nat)
    requires forall k :: k in order ==> k in counts
    requires x !in order
    ensures SumAt(order, counts[x := v]) == SumAt(order, counts)
    decreases |order|
  {
    if order != [] {
      SumAtFresh(order[..|order| - 1], counts, x, v);
    }
  }

  lemma {:induction false} SumAtDedup<K(!new)>(ks: seq<K>)
    ensures SumAt(Dedup(ks), Occurrences(ks)) == |ks|
    decreases |ks|
  {
    if ks != [] {
      var ks' := ks[..|ks| - 1];
      var x := ks[|ks| - 1];
      assert ks == ks' + [x];
      SumAtDedup(ks');
      OccurrencesSnoc(ks', x);
      var d := Dedup(ks');
      if x in ks' {
        SumAtUpdate(d, Occurrences(ks'), x, Occurrences(ks')[x] + 1);
      } else {
        SumAtFresh(d, Occurrences(ks'), x, 1);
        assert Dedup(ks) == d + [x];
        assert (d + [x])[..|d|] == d;
      }
    }
  }

  /** Counting never loses an item: the counts add up to the number of items. */
  lemma TallySum<K(!new)>(ks: seq<K>)
    ensures SumCounts(Tally(ks)) == |ks|
  {
    SumCountsEntries(Dedup(ks), Occurrences(ks));
    SumAtDedup(ks);
  }

  /** The tally has one entry per distinct key, in first-seen order, each with its positive count. */
  lemma TallyEntries<K(!new)>(ks: seq<K>)
    ensures MapSeq(Tally(ks), KeyOf) == Dedup(ks)
    ensures forall c :: multiset(MapSeq(Tally(ks), KeyOf))[c] == if c in ks then 1 else 0
    ensures forall e :: e in Tally(ks) ==> e.key in ks && e.count == multiset(ks)[e.key] >= 1
  {
    forall c ensures multiset(MapSeq(Tally(ks), KeyOf))[c] == if c in ks then 1 else 0 {
      DedupOnce(ks, c);
    }
  }

  lemma {:induction false} SumCountsAppend<K>(a: seq<Entry<K>>, b: seq<Entry<K>>)
    ensures SumCounts(a + b) == SumCounts(a) + SumCounts(b)
    decreases |b|
  {
    if b == [] {
      assert a + b == a;
    } else {
      SumCountsAppend(a, b[..|b| - 1]);
      assert (a + b)[..|a + b| - 1] == a + b[..|b| - 1];
    }
  }

  lemma {:induction false} InsertKeepsSum<K, L>(t: seq<Entry<K>>, x: Entry<K>, key: Entry<K> -> L, lt: (L, L) -> bool)
    ensures SumCounts(Insert(t, x, key, lt)) == SumCounts(t) + x.count
    decreases |t|
  {
    if t != [] && lt(key(x), key(t[|t| - 1])) {
      InsertKeepsSum(t[..|t| - 1], x, key, lt);
    }
  }

  /** Sorting the entries does not change the total count. */
  lemma {:induction false} SortKeepsSum<K, L>(es: seq<Entry<K>>, key: Entry<K> -> L, lt: (L, L) -> bool)
    ensures SumCounts(SortByKey(es, key, lt)) == SumCounts(es)
    decreases |es|
  {
    if es != [] {
      SortKeepsSum(es[..|es| - 1], key, lt);
      InsertKeepsSum(SortByKey(es[..|es| - 1], key, lt), es[|es| - 1], key, lt);
    }
  }
}

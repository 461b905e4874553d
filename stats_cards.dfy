/**
 * The four statistics cards: total terms, distinct categories, terms that
 * occur in at least 80% of trials, and the most common category, all over
 * the records the disorder selection keeps.
 */
module StatsCards {
  import opened Wrappers
  import opened Sequences
  import opened StableSort
  import opened Counting
  import opened DataMapper
  import opened Charts

  datatype Stats = Stats(
    totalTerms: nat,
    uniqueCategories: nat,
    highFrequencyTerms: nat,
    mostCommonCategory: string)

  /** A record is high-frequency when its parsed percent is at least 80 (no upper cap). */
  predicate IsHighFrequency(t: EligibilityTerm) {
    ParsePercent(t.trialPercentage) >= 80
  }

  /**
   * The key of the first count entry after sorting the tally by count,
   * largest first; `N/A` when there is none or it is the empty string.
   */
  function MostCommonCategory(cats: seq<string>): string {
    var sorted := SortByKey(Tally(cats), CountOf, Greater);
    if sorted == [] || sorted[0].key == "" then "N/A" else sorted[0].key
  }

  /** The four figures the cards show. */
  function ComputeStats(data: seq<EligibilityTerm>, d: Domain, sel: Option<string>): (s: Stats)
    ensures s.uniqueCategories <= s.totalTerms
    ensures s.highFrequencyTerms <= s.totalTerms
    ensures s.totalTerms <= |data|
  {
    var f := DisorderFilter(data, d, sel);
    ElementsCard(Categories(f));
    Stats(|f|, |Elements(Categories(f))|, |Filter(f, IsHighFrequency)|, MostCommonCategory(Categories(f)))
  }

  // ---------------------------------------------------------------------------
  // What "most common" means
  // ---------------------------------------------------------------------------

  /**
   * `c` occurs in `ks`, no key occurs more often, and among the keys that
   * occur as often it is the one seen first.
   */
  ghost predicate FirstMostCommon<K(!new)>(ks: seq<K>, c: K) {
    && c in ks
    && (forall x :: x in ks ==> multiset(ks)[x] <= multiset(ks)[c])
    && (forall x :: x in ks && multiset(ks)[x] == multiset(ks)[c] ==> FirstIndex(ks, c) <= FirstIndex(ks, x))
  }

  /** At most one key is the first most common one. */
  lemma FirstMostCommonUnique<K(!new)>(ks: seq<K>, a: K, b: K)
    requires FirstMostCommon(ks, a) && FirstMostCommon(ks, b)
    ensures a == b
  {
    assert FirstIndex(ks, a) == FirstIndex(ks, b);
  }

  /** In a list sorted by count, largest first, no entry has a larger count than the head. */
  lemma {:induction false} DescendingHeadIsMax<K>(es: seq<Entry<K>>, p: nat)
    requires SortedBy(es, CountOf, Greater)
    requires p < |es|
    ensures es[p].count <= es[0].count
    decreases p
  {
    if p > 0 {
      DescendingHeadIsMax(es, p - 1);
    }
  }

  /** Sorting entries by count, largest first, puts an entry with the largest count at the head. */
  lemma SortedHeadIsMax<K>(t: seq<Entry<K>>)
    requires t != []
    ensures SortByKey(t, CountOf, Greater) != []
    ensures SortByKey(t, CountOf, Greater)[0] in t
    ensures forall e :: e in t ==> e.count <= SortByKey(t, CountOf, Greater)[0].count
  {
    var sorted := SortByKey(t, CountOf, Greater);
    SortPermutes(t, CountOf, Greater);
    GreaterIsStrict();
    SortSorted(t, CountOf, Greater);
    assert multiset(sorted)[sorted[0]] > 0;
    forall e | e in t ensures e.count <= sorted[0].count {
      assert multiset(sorted)[e] > 0;
      var p :| 0 <= p < |sorted| && sorted[p] == e;
      DescendingHeadIsMax(sorted, p);
    }
  }

  /** The `i`-th entry of the tally: the `i`-th distinct key and its number of occurrences. */
  lemma TallyAt(ks: seq<string>, i: nat)
    requires i < |Dedup(ks)|
    ensures i < |Tally(ks)| && Tally(ks)[i] == Entry(Dedup(ks)[i], multiset(ks)[Dedup(ks)[i]])
  {
    assert Dedup(ks)[i] in ks;
  }

  /** The sorted tally of a non-empty list is non-empty and its head has the largest count. */
  lemma SortedTallyHeadIsMax(ks: seq<string>)
    requires ks != []
    ensures SortByKey(Tally(ks), CountOf, Greater) != []
    ensures var e0 := SortByKey(Tally(ks), CountOf, Greater)[0];
      && e0.key in ks && e0.count == multiset(ks)[e0.key]
      && forall x :: x in ks ==> multiset(ks)[x] <= e0.count
  {
    var t := Tally(ks);
    assert ks[0] in Dedup(ks);
    SortedHeadIsMax(t);
    var e0 := SortByKey(t, CountOf, Greater)[0];
    var i0 :| 0 <= i0 < |t| && t[i0] == e0;
    TallyAt(ks, i0);
    forall x | x in ks ensures multiset(ks)[x] <= e0.count {
      var i :| 0 <= i < |Dedup(ks)| && Dedup(ks)[i] == x;
      TallyAt(ks, i);
      assert t[i] in t;
    }
  }

  /**
   * The sort is stable, so the head of the sorted tally is the first entry
   * of the unsorted tally with the head's count.
   */
  lemma SortedTallyHeadIsFirst(ks: seq<string>) returns (i0: nat)
    requires SortByKey(Tally(ks), CountOf, Greater) != []
    ensures var e0 := SortByKey(Tally(ks), CountOf, Greater)[0];
      && i0 < |Tally(ks)| && Tally(ks)[i0] == e0
      && forall j :: 0 <= j < i0 ==> Tally(ks)[j].count != e0.count
  {
    var t := Tally(ks);
    var sorted := SortByKey(t, CountOf, Greater);
    var e0 := sorted[0];
    SortStable(t, CountOf, Greater, e0.count);
    var p := KeyIs(CountOf, e0.count);
    assert Filter(sorted, p)[0] == e0;
    i0 := FilterFirst(t, p);
  }

  /**
   * The head of the sorted tally is the first most common key: the sort
   * puts a largest count first and, being stable, keeps the first-seen key
   * ahead of the others with that count.
   */
  lemma SortedTallyHead(ks: seq<string>)
    requires ks != []
    ensures SortByKey(Tally(ks), CountOf, Greater) != []
    ensures FirstMostCommon(ks, SortByKey(Tally(ks), CountOf, Greater)[0].key)
  {
    SortedTallyHeadIsMax(ks);
    var i0 := SortedTallyHeadIsFirst(ks);
    var t := Tally(ks);
    var e0 := SortByKey(t, CountOf, Greater)[0];
    var c := e0.key;
    TallyAt(ks, i0);
    DedupFirstSeen(ks);
    forall x | x in ks && multiset(ks)[x] == multiset(ks)[c] ensures FirstIndex(ks, c) <= FirstIndex(ks, x) {
      var i :| 0 <= i < |Dedup(ks)| && Dedup(ks)[i] == x;
      TallyAt(ks, i);
    }
  }

  /**
   * The most common category is `N/A` for no records; otherwise it is the
   * first most common category, which exists, shown as `N/A` when it is the
   * empty string.
   */
  lemma MostCommonCategorySpec(cats: seq<string>)
    ensures cats == [] ==> MostCommonCategory(cats) == "N/A"
    ensures cats != [] ==> FirstMostCommon(cats, SortByKey(Tally(cats), CountOf, Greater)[0].key)
    ensures forall c :: FirstMostCommon(cats, c) ==> MostCommonCategory(cats) == (if c == "" then "N/A" else c)
  {
    if cats == [] {
      assert Dedup(cats) == [];
    } else {
      SortedTallyHead(cats);
      var w := SortByKey(Tally(cats), CountOf, Greater)[0].key;
      forall c | FirstMostCommon(cats, c) ensures MostCommonCategory(cats) == (if c == "" then "N/A" else c) {
        FirstMostCommonUnique(cats, c, w);
      }
    }
  }

  // ---------------------------------------------------------------------------
  // The other three cards
  // ---------------------------------------------------------------------------

  /** High-frequency records are exactly those in the 100% and 80-99% ranges. */
  lemma {:induction false} HighFrequencyIsTopBuckets(items: seq<EligibilityTerm>)
    ensures |Filter(items, IsHighFrequency)| == BucketCount(items, R100) + BucketCount(items, R80to99)
    decreases |items|
  {
    if items != [] {
      var t := items[0];
      HighFrequencyIsTopBuckets(items[1..]);
      var rest := MapSeq(items[1..], BucketOf);
      assert MapSeq(items, BucketOf) == [BucketOf(t)] + rest;
      TopRanges(ParsePercent(t.trialPercentage));
    }
  }

  /** A percent of at least 80 is exactly one in the two top ranges. */
  lemma TopRanges(p: nat)
    ensures p >= 80 <==> Bucket(p) == R100 || Bucket(p) == R80to99
  {
  }

  /**
   * The cards agree with each other and with the charts: the total is the
   * number of selected records; the distinct-category count is the number of
   * bars in the category chart, at most the total and zero only without
   * records; the high-frequency count is the sum of the two top histogram
   * ranges; and the most common category is characterised above.
   */
  lemma StatsSpec(data: seq<EligibilityTerm>, d: Domain, sel: Option<string>)
    ensures var f := DisorderFilter(data, d, sel); var s := ComputeStats(data, d, sel);
      && s.totalTerms == |f|
      && s.totalTerms == SumCounts(Tally(Categories(f)))
      && s.uniqueCategories == |Tally(Categories(f))|
      && (s.uniqueCategories == 0 <==> s.totalTerms == 0)
      && s.highFrequencyTerms == BucketCount(f, R100) + BucketCount(f, R80to99)
      && (s.totalTerms == 0 ==> s.mostCommonCategory == "N/A")
      && (forall c :: FirstMostCommon(Categories(f), c) ==>
            s.mostCommonCategory == (if c == "" then "N/A" else c))
  {
    var f := DisorderFilter(data, d, sel);
    var cats := Categories(f);
    ElementsCard(cats);
    TallySum(cats);
    HighFrequencyIsTopBuckets(f);
    MostCommonCategorySpec(cats);
  }

  /** Without a selection the cards summarise the whole data set. */
  lemma StatsWithoutSelection(data: seq<EligibilityTerm>, d: Domain)
    ensures ComputeStats(data, d, None) == ComputeStats(data, d, Some(""))
    ensures ComputeStats(data, d, None).totalTerms == |data|
  {
  }
}

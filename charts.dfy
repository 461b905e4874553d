/**
 * The data behind the dashboard charts: the disorder filter, the category
 * distribution (count per category, largest first) and the trial-frequency
 * histogram (percent parsed from the text, six fixed ranges, empty ranges
 * dropped).
 */
module Charts {
  import opened Wrappers
  import opened Sequences
  import opened StableSort
  import opened Counting
  import opened DataMapper

  // ---------------------------------------------------------------------------
  // The disorder filter (shared by the charts, the stats cards and the table)
  // ---------------------------------------------------------------------------

  /** `selectedDisorder` is truthy: present and not the empty string. */
  predicate HasSelection(sel: Option<string>) {
    sel.Some? && sel.value != ""
  }

  /** The record's field for the domain (`disorder` or `cancerType`) equals the selection. */
  predicate MatchesSelection(t: EligibilityTerm, d: Domain, name: string) {
    DomainLabel(t, d) == Some(name)
  }

  function SelectionMatcher(d: Domain, name: string): EligibilityTerm -> bool {
    t => MatchesSelection(t, d, name)
  }

  /** `filteredData`: everything without a selection, else the records of the selected label. */
  function DisorderFilter(data: seq<EligibilityTerm>, d: Domain, sel: Option<string>): seq<EligibilityTerm> {
    if !HasSelection(sel) then data else Filter(data, SelectionMatcher(d, sel.value))
  }

  /**
   * Without a selection the data is unchanged; with one, the result is the
   * order-preserving subsequence of exactly the records whose domain field
   * equals the selection, each as often as in the data.
   */
  lemma DisorderFilterSpec(data: seq<EligibilityTerm>, d: Domain, sel: Option<string>)
    ensures !HasSelection(sel) ==> DisorderFilter(data, d, sel) == data
    ensures IsSubsequence(DisorderFilter(data, d, sel), data)
    ensures HasSelection(sel) ==>
      forall t :: multiset(DisorderFilter(data, d, sel))[t] ==
        (if DomainLabel(t, d) == Some(sel.value) then multiset(data)[t] else 0)
  {
    if HasSelection(sel) {
      FilterIsSubsequence(data, SelectionMatcher(d, sel.value));
      FilterCounts(data, SelectionMatcher(d, sel.value));
    } else {
      SubsequenceRefl(data);
    }
  }

  /**
   * Records normalised from the oncology rows never match a neurology
   * selection (they carry no `disorder`), so that combination is empty.
   */
  lemma CrossDomainSelectionIsEmpty(raws: seq<RawRecord>, name: string)
    requires name != ""
    ensures DisorderFilter(TransformOncologyData(raws), Neurology, Some(name)) == []
    ensures DisorderFilter(TransformNeurologyData(raws), Oncology, Some(name)) == []
  {
    var on := TransformOncologyData(raws);
    var ne := TransformNeurologyData(raws);
    FilterCounts(on, SelectionMatcher(Neurology, name));
    FilterCounts(ne, SelectionMatcher(Oncology, name));
  }

  // ---------------------------------------------------------------------------
  // The category distribution (categoryData)
  // ---------------------------------------------------------------------------

  function CategoryOf(t: EligibilityTerm): string {
    t.category
  }

  function Categories(items: seq<EligibilityTerm>): seq<string> {
    MapSeq(items, CategoryOf)
  }

  /** A category occurs in the list exactly when some record has it. */
  lemma CategoriesMembers(items: seq<EligibilityTerm>)
    ensures forall c :: c in Categories(items) <==> exists t :: t in items && t.category == c
  {
    forall c ensures c in Categories(items) <==> exists t :: t in items && t.category == c {
      if c in Categories(items) {
        var i :| 0 <= i < |items| && Categories(items)[i] == c;
        assert items[i] in items;
      }
      if t :| t in items && t.category == c {
        var i :| 0 <= i < |items| && items[i] == t;
        assert Categories(items)[i] == c;
      }
    }
  }

  /** The descending-by-count comparator: `a` goes first exactly when its count is larger. */
  predicate Greater(a: nat, b: nat) {
    a > b
  }

  lemma GreaterIsStrict()
    ensures StrictOrder(Greater)
  {
  }

  /**
   * `categoryData`: count the records per category, list the counts in
   * first-seen order, and sort them by count, largest first.  There is one
   * entry per distinct category, with its number of records; the counts add
   * up to the number of records and never increase; entries with equal
   * counts keep first-seen order.
   */
  method CategoryData(filtered: seq<EligibilityTerm>) returns (r: seq<Entry<string>>)
    ensures r == SortByKey(Tally(Categories(filtered)), CountOf, Greater)
    ensures forall c :: multiset(MapSeq(r, KeyOf))[c] == if c in Categories(filtered) then 1 else 0
    ensures forall e :: e in r ==> e.count == multiset(Categories(filtered))[e.key]
    ensures SumCounts(r) == |filtered|
    ensures forall i :: 0 <= i < |r| - 1 ==> r[i].count >= r[i + 1].count
    ensures forall n :: Filter(r, KeyIs(CountOf, n)) == Filter(Tally(Categories(filtered)), KeyIs(CountOf, n))
  {
    var order, counts := CountBy(filtered, CategoryOf);
    var entries := Entries(order, counts);
    r := SortedCopy(entries, CountOf, Greater);
    ghost var cats := Categories(filtered);
    assert entries == Tally(cats);
    TallyEntries(cats);
    TallySum(cats);
    SortMapPermutes(entries, CountOf, Greater, KeyOf);
    SortPermutes(entries, CountOf, Greater);
    SortKeepsSum(entries, CountOf, Greater);
    GreaterIsStrict();
    SortSorted(entries, CountOf, Greater);
    forall e | e in r ensures e.count == multiset(cats)[e.key] {
      assert multiset(r)[e] > 0;
    }
    forall n ensures Filter(r, KeyIs(CountOf, n)) == Filter(entries, KeyIs(CountOf, n)) {
      SortStable(entries, CountOf, Greater, n);
    }
  }

  // ---------------------------------------------------------------------------
  // Percent parsing: the first `(\d+)%` match in the text, read as a decimal
  // ---------------------------------------------------------------------------

  /** `\d`: an ASCII digit. */
  predicate IsDigit(c: char) {
    '0' <= c <= '9'
  }

  predicate AllDigits(s: string) {
    forall i :: 0 <= i < |s| ==> IsDigit(s[i])
  }

  /** `parseInt` of a string of digits, as an unbounded number. */
  function DecimalValue(ds: string): nat
    requires AllDigits(ds)
    decreases |ds|
  {
    if ds == [] then 0 else DecimalValue(ds[..|ds| - 1]) * 10 + (ds[|ds| - 1] as int - '0' as int)
  }

  /** Where the greedy `\d+` starting at `i` stops: the end of the digit run. */
  function RunEnd(s: string, i: nat): (j: nat)
    requires i <= |s|
    ensures i <= j <= |s|
    ensures forall m :: i <= m < j ==> IsDigit(s[m])
    ensures j == |s| || !IsDigit(s[j])
    decreases |s| - i
  {
    if i < |s| && IsDigit(s[i]) then RunEnd(s, i + 1) else i
  }

  /**
   * The regular expression `(\d+)%` matches at start `i`: at least one digit,
   * then `%`.  (Giving back digits cannot help, since a digit is not `%`.)
   */
  predicate MatchAt(s: string, i: nat)
    requires i <= |s|
  {
    i < RunEnd(s, i) < |s| && s[RunEnd(s, i)] == '%'
  }

  /** The leftmost-match search, trying each start from `i` on. */
  function ScanPercent(s: string, i: nat): nat
    requires i <= |s|
    decreases |s| - i
  {
    if i == |s| then 0
    else if MatchAt(s, i) then DecimalValue(s[i..RunEnd(s, i)])
    else ScanPercent(s, i + 1)
  }

  /** The digits of the first match as a number, or 0 when the text has no match. */
  function ParsePercent(s: string): nat {
    ScanPercent(s, 0)
  }

  /**
   * A digit run that is maximal (not preceded by a digit) and directly
   * followed by `%`: the digits are `s[i..k]` and `s[k]` is `%`.
   */
  ghost predicate PercentRun(s: string, i: int, k: int) {
    && 0 <= i < k < |s|
    && (i == 0 || !IsDigit(s[i - 1]))
    && (forall m :: i <= m < k ==> IsDigit(s[m]))
    && s[k] == '%'
  }

  lemma {:induction false} RunEndAt(s: string, i: nat, k: nat)
    requires i <= k <= |s|
    requires forall m :: i <= m < k ==> IsDigit(s[m])
    requires k == |s| || !IsDigit(s[k])
    ensures RunEnd(s, i) == k
    decreases k - i
  {
    if i < k {
      RunEndAt(s, i + 1, k);
    }
  }

  /** With no match from `i` on, the scan yields 0. */
  lemma {:induction false} ScanNone(s: string, i: nat)
    requires i <= |s|
    requires forall j :: i <= j < |s| ==> !MatchAt(s, j)
    ensures ScanPercent(s, i) == 0
    decreases |s| - i
  {
    if i < |s| {
      ScanNone(s, i + 1);
    }
  }

  /** The scan from `i` yields the digits of the first match at or after `i`. */
  lemma {:induction false} ScanFirst(s: string, i: nat, j: nat)
    requires i <= j < |s| && MatchAt(s, j)
    requires forall j' :: i <= j' < j ==> !MatchAt(s, j')
    ensures ScanPercent(s, i) == DecimalValue(s[j..RunEnd(s, j)])
    decreases j - i
  {
    if i < j {
      ScanFirst(s, i + 1, j);
    }
  }

  /** The leftmost start of a match is the start of a maximal run. */
  lemma LeftmostMatchIsRun(s: string, j: nat)
    requires j < |s| && MatchAt(s, j)
    requires forall j' :: 0 <= j' < j ==> !MatchAt(s, j')
    ensures PercentRun(s, j, RunEnd(s, j))
  {
    if j > 0 && IsDigit(s[j - 1]) {
      assert RunEnd(s, j - 1) == RunEnd(s, j);
      assert MatchAt(s, j - 1);
    }
  }

  /** Below any match there is a leftmost one. */
  lemma {:induction false} LeftmostMatch(s: string, j: nat) returns (j0: nat)
    requires j < |s| && MatchAt(s, j)
    ensures j0 <= j && MatchAt(s, j0)
    ensures forall j' :: 0 <= j' < j0 ==> !MatchAt(s, j')
    decreases j
  {
    if exists j' :: 0 <= j' < j && MatchAt(s, j') {
      var j' :| 0 <= j' < j && MatchAt(s, j');
      j0 := LeftmostMatch(s, j');
    } else {
      j0 := j;
    }
  }

  /** Without a maximal run followed by `%`, nothing matches and the percent is 0. */
  lemma ParsePercentNone(s: string)
    requires forall i, k :: !PercentRun(s, i, k)
    ensures ParsePercent(s) == 0
  {
    if exists j :: 0 <= j < |s| && MatchAt(s, j) {
      var j :| 0 <= j < |s| && MatchAt(s, j);
      var j0 := LeftmostMatch(s, j);
      LeftmostMatchIsRun(s, j0);
    } else {
      ScanNone(s, 0);
    }
  }

  /** The first maximal run followed by `%` is where the regular expression matches. */
  lemma ParsePercentFirst(s: string, i: nat, k: nat)
    requires PercentRun(s, i, k)
    requires forall i', k' :: i' < i ==> !PercentRun(s, i', k')
    ensures ParsePercent(s) == DecimalValue(s[i..k])
  {
    RunEndAt(s, i, k);
    assert MatchAt(s, i);
    var j0 := LeftmostMatch(s, i);
    LeftmostMatchIsRun(s, j0);
    ScanFirst(s, 0, i);
  }

  /**
   * The parsed percent is the value of the first maximal digit run directly
   * followed by `%`, and 0 when there is no such run.
   */
  lemma ParsePercentSpec(s: string)
    ensures (forall i, k :: !PercentRun(s, i, k)) ==> ParsePercent(s) == 0
    ensures forall i: nat, k: nat :: PercentRun(s, i, k) && (forall i', k' :: i' < i ==> !PercentRun(s, i', k')) ==>
      ParsePercent(s) == DecimalValue(s[i..k])
  {
    if forall i, k :: !PercentRun(s, i, k) {
      ParsePercentNone(s);
    }
    forall i: nat, k: nat | PercentRun(s, i, k) && (forall i', k' :: i' < i ==> !PercentRun(s, i', k'))
      ensures ParsePercent(s) == DecimalValue(s[i..k])
    {
      ParsePercentFirst(s, i, k);
    }
  }

  /** Worked examples: a whole percentage, and a decimal one where only the digits after the point match. */
  lemma ParsePercentExamples()
    ensures ParsePercent("85%") == 85
    ensures ParsePercent("100%") == 100
    ensures ParsePercent("12.5%") == 5
  {
    assert RunEnd("85%", 0) == 2;
    assert "85%"[0..2] == "85";
    assert "85"[..1] == "8" && "8"[..0] == "";
    assert RunEnd("100%", 0) == 3;
    assert "100%"[0..3] == "100";
    assert "100"[..2] == "10" && "10"[..1] == "1" && "1"[..0] == "";
    assert RunEnd("12.5%", 0) == 2;
    assert RunEnd("12.5%", 1) == 2;
    assert RunEnd("12.5%", 3) == 4;
    assert "12.5%"[3..4] == "5";
  }

  /** Text with no `%`, such as a bare fraction, parses as 0. */
  lemma ParsePercentWithoutPercentSign(s: string)
    requires forall i :: 0 <= i < |s| ==> s[i] != '%'
    ensures ParsePercent(s) == 0
  {
    ScanNone(s, 0);
  }

  // ---------------------------------------------------------------------------
  // The histogram (trialFrequencyData)
  // ---------------------------------------------------------------------------

  /** The six percentage ranges. */
  datatype Range = R100 | R80to99 | R60to79 | R40to59 | R20to39 | R0to19

  function RangeLabel(r: Range): string {
    match r
    case R100 => "100%"
    case R80to99 => "80-99%"
    case R60to79 => "60-79%"
    case R40to59 => "40-59%"
    case R20to39 => "20-39%"
    case R0to19 => "0-19%"
  }

  /** The fixed display order. */
  const RangeOrder: seq<Range> := [R100, R80to99, R60to79, R40to59, R20to39, R0to19]

  function RangeIndex(r: Range): nat {
    match r
    case R100 => 0
    case R80to99 => 1
    case R60to79 => 2
    case R40to59 => 3
    case R20to39 => 4
    case R0to19 => 5
  }

  /** The range a percent falls in (no clamping: anything above 100 counts as 80-99%). */
  function Bucket(p: nat): Range {
    if p == 100 then R100
    else if p >= 80 then R80to99
    else if p >= 60 then R60to79
    else if p >= 40 then R40to59
    else if p >= 20 then R20to39
    else R0to19
  }

  /** The interval each range stands for, written independently of `Bucket`. */
  predicate Covers(r: Range, p: nat) {
    match r
    case R100 => p == 100
    case R80to99 => 80 <= p && p != 100
    case R60to79 => 60 <= p < 80
    case R40to59 => 40 <= p < 60
    case R20to39 => 20 <= p < 40
    case R0to19 => p < 20
  }

  /** Every percent has exactly one range, the one `Bucket` returns. */
  lemma BucketSpec(p: nat)
    ensures forall r :: Bucket(p) == r <==> Covers(r, p)
  {
  }

  /** The order lists every range once, in index order, with the source's labels. */
  lemma RangeOrderSpec()
    ensures forall r :: RangeIndex(r) < |RangeOrder| && RangeOrder[RangeIndex(r)] == r
    ensures forall i, j :: 0 <= i < j < |RangeOrder| ==> RangeIndex(RangeOrder[i]) < RangeIndex(RangeOrder[j])
    ensures MapSeq(RangeOrder, RangeLabel) == ["100%", "80-99%", "60-79%", "40-59%", "20-39%", "0-19%"]
  {
    forall r ensures RangeIndex(r) < |RangeOrder| && RangeOrder[RangeIndex(r)] == r {
      match r
      case R100 =>
      case R80to99 =>
      case R60to79 =>
      case R40to59 =>
      case R20to39 =>
      case R0to19 =>
    }
  }

  function BucketOf(t: EligibilityTerm): Range {
    Bucket(ParsePercent(t.trialPercentage))
  }

  /** The number of records whose percent falls in range `r`. */
  function BucketCount(items: seq<EligibilityTerm>, r: Range): nat {
    multiset(MapSeq(items, BucketOf))[r]
  }

  /** Walk the ranges in `order`, emitting each one whose count is present and non-zero, with that count. */
  function EmitInOrder(order: seq<Range>, freq: map<Range, nat>): seq<Entry<Range>>
    decreases |order|
  {
    if order == [] then []
    else
      (if order[0] in freq && freq[order[0]] > 0 then [Entry(order[0], freq[order[0]])] else [])
      + EmitInOrder(order[1..], freq)
  }

  /** The ranges of `es` come in strictly increasing display order. */
  predicate KeysAscending(es: seq<Entry<Range>>) {
    forall i, j :: 0 <= i < j < |es| ==> RangeIndex(es[i].key) < RangeIndex(es[j].key)
  }

  /** Unfolding one step of the walk. */
  lemma EmitCons(order: seq<Range>, freq: map<Range, nat>)
    requires order != []
    ensures EmitInOrder(order, freq) ==
      (if order[0] in freq && freq[order[0]] > 0 then [Entry(order[0], freq[order[0]])] else [])
      + EmitInOrder(order[1..], freq)
  {
  }

  /** Every emitted entry is a range of the order with its positive count. */
  lemma {:induction false} EmitEntries(order: seq<Range>, freq: map<Range, nat>)
    ensures forall e :: e in EmitInOrder(order, freq) ==> e.key in order && e.key in freq && e.count == freq[e.key] > 0
    decreases |order|
  {
    if order != [] {
      EmitCons(order, freq);
      EmitEntries(order[1..], freq);
      assert forall r :: r in order[1..] ==> r in order;
    }
  }

  /** Every range of the order with a positive count is emitted. */
  lemma {:induction false} EmitComplete(order: seq<Range>, freq: map<Range, nat>)
    ensures forall r :: r in order && r in freq && freq[r] > 0 ==> r in MapSeq(EmitInOrder(order, freq), KeyOf)
    decreases |order|
  {
    if order != [] {
      var rest := EmitInOrder(order[1..], freq);
      var head := if order[0] in freq && freq[order[0]] > 0 then [Entry(order[0], freq[order[0]])] else [];
      EmitCons(order, freq);
      EmitComplete(order[1..], freq);
      MapSeqAppend(head, rest, KeyOf);
      forall r | r in order && r in freq && freq[r] > 0 ensures r in MapSeq(head + rest, KeyOf) {
        if r == order[0] {
          assert MapSeq(head, KeyOf)[0] == r;
        } else {
          assert r in order[1..];
          assert r in MapSeq(rest, KeyOf);
        }
      }
    }
  }

  /** Putting an entry below all of an ascending list in front keeps it ascending. */
  lemma AscendingCons(e: Entry<Range>, rest: seq<Entry<Range>>)
    requires KeysAscending(rest)
    requires forall x :: x in rest ==> RangeIndex(e.key) < RangeIndex(x.key)
    ensures KeysAscending([e] + rest)
  {
    var es := [e] + rest;
    forall i, j | 0 <= i < j < |es| ensures RangeIndex(es[i].key) < RangeIndex(es[j].key) {
      assert es[j] == rest[j - 1];
      if i == 0 {
        assert rest[j - 1] in rest;
      } else {
        assert es[i] == rest[i - 1];
      }
    }
  }

  /** Over an order with strictly increasing indices, the emitted ranges are strictly increasing too. */
  lemma {:induction false} EmitAscending(order: seq<Range>, freq: map<Range, nat>)
    requires forall i, j :: 0 <= i < j < |order| ==> RangeIndex(order[i]) < RangeIndex(order[j])
    ensures KeysAscending(EmitInOrder(order, freq))
    decreases |order|
  {
    if order != [] {
      var rest := EmitInOrder(order[1..], freq);
      EmitCons(order, freq);
      EmitAscending(order[1..], freq);
      if order[0] in freq && freq[order[0]] > 0 {
        EmitEntries(order[1..], freq);
        forall x | x in rest ensures RangeIndex(order[0]) < RangeIndex(x.key) {
          var k :| 0 <= k < |order[1..]| && order[1..][k] == x.key;
          assert order[1..][k] == order[k + 1];
        }
        AscendingCons(Entry(order[0], freq[order[0]]), rest);
      } else {
        assert EmitInOrder(order, freq) == rest;
      }
    }
  }

  /**
   * The walk emits exactly the ranges of the order with a positive count,
   * each with its count, keeping the order's sequence.
   */
  lemma EmitInOrderSpec(order: seq<Range>, freq: map<Range, nat>)
    requires forall i, j :: 0 <= i < j < |order| ==> RangeIndex(order[i]) < RangeIndex(order[j])
    ensures forall e :: e in EmitInOrder(order, freq) ==> e.key in order && e.key in freq && e.count == freq[e.key] > 0
    ensures forall r :: r in order && r in freq && freq[r] > 0 ==> r in MapSeq(EmitInOrder(order, freq), KeyOf)
    ensures KeysAscending(EmitInOrder(order, freq))
  {
    EmitEntries(order, freq);
    EmitComplete(order, freq);
    EmitAscending(order, freq);
  }

  /** The six counts of a multiset of ranges add up to its size. */
  lemma {:induction false} SixRangesCover(rs: seq<Range>)
    ensures var m := multiset(rs);
      m[R100] + m[R80to99] + m[R60to79] + m[R40to59] + m[R20to39] + m[R0to19] == |rs|
    decreases |rs|
  {
    if rs != [] {
      assert rs == rs[..|rs| - 1] + [rs[|rs| - 1]];
      var x := rs[|rs| - 1];
      var m0 := multiset(rs[..|rs| - 1]);
      assert multiset(rs) == m0 + multiset{x};
      SixRangesCover(rs[..|rs| - 1]);
      match x
      case R100 =>
      case R80to99 =>
      case R60to79 =>
      case R40to59 =>
      case R20to39 =>
      case R0to19 =>
    }
  }

  /** The total of `freq` over `order`, absent ranges counting 0. */
  function FreqSum(order: seq<Range>, freq: map<Range, nat>): nat
    decreases |order|
  {
    if order == [] then 0 else (if order[0] in freq then freq[order[0]] else 0) + FreqSum(order[1..], freq)
  }

  /** Leaving out the empty ranges does not change the total. */
  lemma {:induction false} EmitSum(order: seq<Range>, freq: map<Range, nat>)
    ensures SumCounts(EmitInOrder(order, freq)) == FreqSum(order, freq)
    decreases |order|
  {
    if order != [] {
      var head := if order[0] in freq && freq[order[0]] > 0 then [Entry(order[0], freq[order[0]])] else [];
      SumCountsAppend(head, EmitInOrder(order[1..], freq));
      EmitSum(order[1..], freq);
      if head != [] {
        assert head[..0] == [];
      }
    }
  }

  /** Over the ranges of some records, the total of their count map is the number of records. */
  lemma FreqSumOfOccurrences(rs: seq<Range>)
    ensures FreqSum(RangeOrder, Occurrences(rs)) == |rs|
  {
    var m := Occurrences(rs);
    SixRangesCover(rs);
    var o := RangeOrder;
    assert o[1..][1..][1..][1..][1..][1..] == [];
    assert forall rg :: (if rg in m then m[rg] else 0) == multiset(rs)[rg];
  }

  /**
   * `trialFrequencyData`: the bucket counts in the fixed order, empty buckets
   * left out.  Each emitted count is the (positive) number of records in its
   * range, a range is emitted exactly when some record falls in it, ranges
   * come in display order, and the counts add up to the number of records.
   */
  method TrialFrequencyData(filtered: seq<EligibilityTerm>) returns (r: seq<Entry<Range>>)
    ensures forall i :: 0 <= i < |r| ==> 1 <= r[i].count == BucketCount(filtered, r[i].key)
    ensures forall rg :: rg in MapSeq(r, KeyOf) <==> BucketCount(filtered, rg) > 0
    ensures KeysAscending(r)
    ensures SumCounts(r) == |filtered|
  {
    var order, freq := CountBy(filtered, BucketOf);
    r := EmitInOrder(RangeOrder, freq);
    HistogramSpec(filtered);
  }

  /** The histogram of the records, in terms of their bucket counts. */
  lemma HistogramSpec(filtered: seq<EligibilityTerm>)
    ensures var r := EmitInOrder(RangeOrder, Occurrences(MapSeq(filtered, BucketOf)));
      && (forall i :: 0 <= i < |r| ==> 1 <= r[i].count == BucketCount(filtered, r[i].key))
      && (forall rg :: rg in MapSeq(r, KeyOf) <==> BucketCount(filtered, rg) > 0)
      && KeysAscending(r)
      && SumCounts(r) == |filtered|
  {
    FrequencyFacts(MapSeq(filtered, BucketOf));
  }

  /** The facts about the emitted histogram, over the ranges of the records. */
  lemma FrequencyFacts(ks: seq<Range>)
    ensures var r := EmitInOrder(RangeOrder, Occurrences(ks));
      && (forall i :: 0 <= i < |r| ==> 1 <= r[i].count == multiset(ks)[r[i].key])
      && (forall rg :: rg in MapSeq(r, KeyOf) <==> multiset(ks)[rg] > 0)
      && KeysAscending(r)
      && SumCounts(r) == |ks|
  {
    var freq := Occurrences(ks);
    var r := EmitInOrder(RangeOrder, freq);
    RangeOrderSpec();
    EmitInOrderSpec(RangeOrder, freq);
    EmitSum(RangeOrder, freq);
    FreqSumOfOccurrences(ks);
    EmitMembers(ks);
    forall i | 0 <= i < |r| ensures 1 <= r[i].count == multiset(ks)[r[i].key] {
      assert r[i] in r;
    }
  }

  lemma EmitMembers(ks: seq<Range>)
    ensures var r := EmitInOrder(RangeOrder, Occurrences(ks));
      forall rg :: rg in MapSeq(r, KeyOf) <==> multiset(ks)[rg] > 0
  {
    var freq := Occurrences(ks);
    var r := EmitInOrder(RangeOrder, freq);
    RangeOrderSpec();
    EmitInOrderSpec(RangeOrder, freq);
    forall rg ensures rg in MapSeq(r, KeyOf) <==> multiset(ks)[rg] > 0 {
      if rg in MapSeq(r, KeyOf) {
        var i :| 0 <= i < |r| && r[i].key == rg;
        assert r[i] in r;
      }
      if multiset(ks)[rg] > 0 {
        assert RangeOrder[RangeIndex(rg)] == rg;
        assert rg in RangeOrder;
        assert rg in freq;
      }
    }
  }
}

/**
 * The data table: the disorder, search and category filters, the sort by a
 * clicked column (clicking the sorted column again flips the direction, a
 * new column starts ascending), and the sorted list of category options.
 */
module DataTable {
  import opened Wrappers
  import opened Sequences
  import opened StableSort
  import opened Strings
  import opened DataMapper
  import opened Charts

  // ---------------------------------------------------------------------------
  // Filtering
  // ---------------------------------------------------------------------------

  /** The search text occurs, ignoring case, in the term, the category or the standard code. */
  predicate SearchMatches(t: EligibilityTerm, q: string) {
    || Contains(Lower(t.term), Lower(q))
    || Contains(Lower(t.category), Lower(q))
    || Contains(Lower(t.standardCode), Lower(q))
  }

  function SearchMatcher(q: string): EligibilityTerm -> bool {
    t => SearchMatches(t, q)
  }

  function CategoryIs(c: string): EligibilityTerm -> bool {
    (t: EligibilityTerm) => t.category == c
  }

  /**
   * The table's `filteredData`: the disorder filter, then the search filter
   * when the search text is non-empty, then the category filter when a
   * category is chosen.
   */
  function TableFilter(data: seq<EligibilityTerm>, d: Domain, sel: Option<string>, q: string, cat: string): seq<EligibilityTerm> {
    var bySelection := DisorderFilter(data, d, sel);
    var bySearch := if q != "" then Filter(bySelection, SearchMatcher(q)) else bySelection;
    if cat != "" then Filter(bySearch, CategoryIs(cat)) else bySearch
  }

  /** Whether a record passes all three filters, each inactive one letting everything through. */
  predicate Kept(t: EligibilityTerm, d: Domain, sel: Option<string>, q: string, cat: string) {
    && (!HasSelection(sel) || MatchesSelection(t, d, sel.value))
    && (q == "" || SearchMatches(t, q))
    && (cat == "" || t.category == cat)
  }

  function Keeper(d: Domain, sel: Option<string>, q: string, cat: string): EligibilityTerm -> bool {
    t => Kept(t, d, sel, q, cat)
  }

  function SelectionStage(d: Domain, sel: Option<string>): EligibilityTerm -> bool {
    t => !HasSelection(sel) || MatchesSelection(t, d, sel.value)
  }

  function SearchStage(q: string): EligibilityTerm -> bool {
    t => q == "" || SearchMatches(t, q)
  }

  function CategoryStage(cat: string): EligibilityTerm -> bool {
    (t: EligibilityTerm) => cat == "" || t.category == cat
  }

  function SelectionSearchStage(d: Domain, sel: Option<string>, q: string): EligibilityTerm -> bool {
    t => SelectionStage(d, sel)(t) && SearchStage(q)(t)
  }

  /** A stage that is switched off is a filter that keeps everything. */
  lemma StageAsFilter(s: seq<EligibilityTerm>, active: bool, p: EligibilityTerm -> bool, stage: EligibilityTerm -> bool)
    requires forall t :: stage(t) == (!active || p(t))
    ensures (if active then Filter(s, p) else s) == Filter(s, stage)
  {
    if active {
      FilterExt(s, p, stage);
    } else {
      FilterKeepsAll(s, stage);
    }
  }

  /**
   * The three filters in a row keep exactly the records that pass all three,
   * in their original order and multiplicity; with no selection, no search
   * text and no category the data is unchanged.
   */
  lemma TableFilterIsOneFilter(data: seq<EligibilityTerm>, d: Domain, sel: Option<string>, q: string, cat: string)
    ensures TableFilter(data, d, sel, q, cat) == Filter(data, Keeper(d, sel, q, cat))
  {
    var s1 := DisorderFilter(data, d, sel);
    var p1 := if HasSelection(sel) then SelectionMatcher(d, sel.value) else SelectionMatcher(d, "");
    StageAsFilter(data, HasSelection(sel), p1, SelectionStage(d, sel));
    assert s1 == Filter(data, SelectionStage(d, sel));
    var s2 := if q != "" then Filter(s1, SearchMatcher(q)) else s1;
    StageAsFilter(s1, q != "", SearchMatcher(q), SearchStage(q));
    assert s2 == Filter(s1, SearchStage(q));
    StageAsFilter(s2, cat != "", CategoryIs(cat), CategoryStage(cat));
    assert TableFilter(data, d, sel, q, cat) == Filter(s2, CategoryStage(cat));
    FilterFilter(data, SelectionStage(d, sel), SearchStage(q), SelectionSearchStage(d, sel, q));
    FilterFilter(data, SelectionSearchStage(d, sel, q), CategoryStage(cat), Keeper(d, sel, q, cat));
  }

  lemma TableFilterSpec(data: seq<EligibilityTerm>, d: Domain, sel: Option<string>, q: string, cat: string)
    ensures TableFilter(data, d, sel, q, cat) == Filter(data, Keeper(d, sel, q, cat))
    ensures forall t :: t in TableFilter(data, d, sel, q, cat) <==> t in data && Kept(t, d, sel, q, cat)
    ensures IsSubsequence(TableFilter(data, d, sel, q, cat), data)
    ensures !HasSelection(sel) && q == "" && cat == "" ==> TableFilter(data, d, sel, q, cat) == data
  {
    TableFilterIsOneFilter(data, d, sel, q, cat);
    FilterMembers(data, Keeper(d, sel, q, cat));
    FilterIsSubsequence(data, Keeper(d, sel, q, cat));
    if !HasSelection(sel) && q == "" && cat == "" {
      FilterKeepsAll(data, Keeper(d, sel, q, cat));
    }
  }

  /** The search ignores case: two search texts that differ only in letter case keep the same records. */
  lemma SearchIgnoresCase(t: EligibilityTerm, q1: string, q2: string)
    requires EqualIgnoringCase(q1, q2)
    ensures SearchMatches(t, q1) == SearchMatches(t, q2)
  {
    LowerEqualIgnoringCase(q1, q2);
  }

  /** For instance, "ALZ" and "alz" find the same records. */
  lemma SearchIgnoresCaseExample(t: EligibilityTerm)
    ensures SearchMatches(t, "ALZ") == SearchMatches(t, "alz")
  {
    SearchIgnoresCase(t, "ALZ", "alz");
  }

  /** The empty search text occurs everywhere, so an empty search could not drop anything anyway. */
  lemma EmptySearchMatchesAll(t: EligibilityTerm)
    ensures SearchMatches(t, "")
  {
    assert StartsWith(Lower(t.term), Lower(""));
  }

  // ---------------------------------------------------------------------------
  // Sorting
  // ---------------------------------------------------------------------------

  /** The record fields a column header can sort by. */
  datatype SortField =
    | Term | Disorder | CancerType | Category | TrialPercentage
    | InclusionExclusion | FhirResource | StandardCode | Unstructured

  datatype Direction = Asc | Desc

  /** The field's text, the empty string standing in for a missing or empty value. */
  function FieldValue(t: EligibilityTerm, f: SortField): string {
    match f
    case Term => t.term
    case Disorder => t.disorder.GetOr("")
    case CancerType => t.cancerType.GetOr("")
    case Category => t.category
    case TrialPercentage => t.trialPercentage
    case InclusionExclusion => t.inclusionExclusion
    case FhirResource => t.fhirResource
    case StandardCode => t.standardCode
    case Unstructured => t.unstructured
  }

  function FieldKey(f: SortField): EligibilityTerm -> string {
    t => FieldValue(t, f)
  }

  /** Ascending compares `a` with `b`, descending `b` with `a`. */
  function Order(dir: Direction): (string, string) -> bool {
    if dir == Asc then StrLt else StrGt
  }

  /** The header of the label column sorts by the domain's label field. */
  function LabelField(d: Domain): SortField {
    if d == Neurology then Disorder else CancerType
  }

  /**
   * `sortedData`: a sorted copy of the filtered records.  The copy holds the
   * same records; neighbours are in the chosen direction by the chosen
   * field; records with equal field values keep their filtered order.
   */
  method SortedData(filtered: seq<EligibilityTerm>, field: SortField, dir: Direction) returns (r: seq<EligibilityTerm>)
    ensures r == SortByKey(filtered, FieldKey(field), Order(dir))
    ensures multiset(r) == multiset(filtered)
    ensures dir == Asc ==> forall i :: 0 <= i < |r| - 1 ==> !StrLt(FieldValue(r[i + 1], field), FieldValue(r[i], field))
    ensures dir == Desc ==> forall i :: 0 <= i < |r| - 1 ==> !StrLt(FieldValue(r[i], field), FieldValue(r[i + 1], field))
    ensures forall v :: Filter(r, KeyIs(FieldKey(field), v)) == Filter(filtered, KeyIs(FieldKey(field), v))
  {
    r := SortedCopy(filtered, FieldKey(field), Order(dir));
    var key := FieldKey(field);
    var lt := Order(dir);
    SortPermutes(filtered, key, lt);
    StrLtIsStrictTotal();
    StrGtIsStrict();
    SortSorted(filtered, key, lt);
    forall v ensures Filter(r, KeyIs(key, v)) == Filter(filtered, KeyIs(key, v)) {
      SortStable(filtered, key, lt, v);
    }
  }

  /**
   * The percent column sorts as text, not as a number: ascending, "100%"
   * comes before "85%".
   */
  lemma PercentColumnSortsAsText(a: EligibilityTerm, b: EligibilityTerm)
    requires a.trialPercentage == "85%" && b.trialPercentage == "100%"
    ensures SortByKey([a, b], FieldKey(TrialPercentage), Order(Asc)) == [b, a]
    ensures ParsePercent(a.trialPercentage) < ParsePercent(b.trialPercentage)
  {
    ParsePercentExamples();
    var key := FieldKey(TrialPercentage);
    assert [a, b][..1] == [a];
    assert [a][..0] == [];
    assert SortByKey([a], key, StrLt) == [a];
    assert StrLt(key(b), key(a));
    assert Insert([a], b, key, StrLt) == Insert([], b, key, StrLt) + [a];
  }

  /** The sort state a header click updates. */
  datatype SortState = SortState(field: SortField, dir: Direction)

  function Flip(dir: Direction): Direction {
    if dir == Asc then Desc else Asc
  }

  /** `handleSort`: the sorted column flips direction, another column becomes the sorted one, ascending. */
  function Toggle(s: SortState, f: SortField): SortState {
    if s.field == f then SortState(f, Flip(s.dir)) else SortState(f, Asc)
  }

  /**
   * After a click the clicked column is sorted; a second click on it
   * restores the state before the first click if it was already sorted,
   * and otherwise leaves it sorted descending.
   */
  lemma ToggleTwice(s: SortState, f: SortField)
    ensures Toggle(s, f).field == f
    ensures s.field == f ==> Toggle(Toggle(s, f), f) == s
    ensures s.field != f ==> Toggle(s, f).dir == Asc && Toggle(Toggle(s, f), f) == SortState(f, Desc)
  {
  }

  // ---------------------------------------------------------------------------
  // The category options
  // ---------------------------------------------------------------------------

  function Identity(s: string): string {
    s
  }

  /**
   * `categories`: the distinct categories of the whole data set (before any
   * filter), sorted.  Each category appears once and they are in strictly
   * ascending order.
   */
  method CategoryOptions(data: seq<EligibilityTerm>) returns (r: seq<string>)
    ensures r == SortByKey(Dedup(Categories(data)), Identity, StrLt)
    ensures forall c :: c in r <==> exists t :: t in data && t.category == c
    ensures forall i, j :: 0 <= i < j < |r| ==> r[i] != r[j]
    ensures forall i :: 0 <= i < |r| - 1 ==> StrLt(r[i], r[i + 1])
  {
    var cats := Dedup(Categories(data));
    r := SortedCopy(cats, Identity, StrLt);
    SortPermutes(cats, Identity, StrLt);
    NoDupOfPermutation(cats, r);
    StrLtIsStrictTotal();
    SortSorted(cats, Identity, StrLt);
    CategoriesMembers(data);
    SameMembers(cats, r);
    forall i | 0 <= i < |r| - 1 ensures StrLt(r[i], r[i + 1]) {
      assert r[i] != r[i + 1];
    }
  }

  // ---------------------------------------------------------------------------
  // The component's state
  // ---------------------------------------------------------------------------

  /** The table's four pieces of state. */
  class TableState {
    var sortField: SortField
    var sortDirection: Direction
    var searchTerm: string
    var categoryFilter: string

    /** Sorted by term, ascending, with no search text and no category chosen. */
    constructor()
      ensures sortField == Term && sortDirection == Asc
      ensures searchTerm == "" && categoryFilter == ""
    {
      sortField := Term;
      sortDirection := Asc;
      searchTerm := "";
      categoryFilter := "";
    }

    function Sort(): SortState
      reads this
    {
      SortState(sortField, sortDirection)
    }

    /** A click on a column header; the filters are untouched. */
    method HandleSort(field: SortField)
      modifies this
      ensures Sort() == Toggle(old(Sort()), field)
      ensures searchTerm == old(searchTerm) && categoryFilter == old(categoryFilter)
    {
      if sortField == field {
        sortDirection := if sortDirection == Asc then Desc else Asc;
      } else {
        sortField := field;
        sortDirection := Asc;
      }
    }

    /** The label column's header, which sorts by the domain's label field. */
    method HandleLabelSort(d: Domain)
      modifies this
      ensures Sort() == Toggle(old(Sort()), LabelField(d))
      ensures searchTerm == old(searchTerm) && categoryFilter == old(categoryFilter)
    {
      HandleSort(LabelField(d));
    }

    /** Typing in the search box. */
    method SetSearchTerm(q: string)
      modifies this
      ensures searchTerm == q
      ensures Sort() == old(Sort()) && categoryFilter == old(categoryFilter)
    {
      searchTerm := q;
    }

    /** Choosing a category; the empty string is "All Categories". */
    method SetCategoryFilter(c: string)
      modifies this
      ensures categoryFilter == c
      ensures Sort() == old(Sort()) && searchTerm == old(searchTerm)
    {
      categoryFilter := c;
    }

    /**
     * The rows the table shows: the records that pass the three filters,
     * sorted by the current column and direction.
     */
    method Rows(data: seq<EligibilityTerm>, d: Domain, sel: Option<string>) returns (r: seq<EligibilityTerm>)
      ensures r == SortByKey(TableFilter(data, d, sel, searchTerm, categoryFilter), FieldKey(sortField), Order(sortDirection))
      ensures multiset(r) == multiset(Filter(data, Keeper(d, sel, searchTerm, categoryFilter)))
    {
      TableFilterSpec(data, d, sel, searchTerm, categoryFilter);
      var filtered := TableFilter(data, d, sel, searchTerm, categoryFilter);
      r := SortedData(filtered, sortField, sortDirection);
    }
  }
}

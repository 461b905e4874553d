# Clinical-trial eligibility dashboard: data core in Dafny

This project models the data-reshaping core of a clinical-trial eligibility
dashboard and proves properties of it. The dashboard shows eligibility
criteria ("terms") drawn from clinical trials in two domains, neurology and
oncology. The model covers:

- the normaliser that turns raw rows of either domain into one record type,
  tagged with a `disorder` (neurology) or a `cancerType` (oncology), and the
  constant table from each disorder or cancer type to its trial names;
- the selection filter shared by the charts, the statistics cards and the
  table;
- the category distribution, which counts the records per category and sorts
  the counts with the largest first;
- the trial-frequency histogram, which reads the first `(\d+)%` in a record's
  percentage text and puts it in one of six fixed ranges;
- the four statistics cards;
- the data table's search, category and selection filters, its column sort
  and header-click toggle, and its sorted list of category options;
- the page's tab and sub-tab state, the data set it selects and the trial
  list it looks up;
- the trials panel's links to registry pages.

Modules:

- `Wrappers`: the `Option` type.
- `Sequences`: JavaScript's `filter` and `map`, and the first-seen
  de-duplication that a `Set` and an insertion-ordered object perform.
- `StableSort`: `Array.prototype.sort`, which is stable. It is modelled by a
  stable insertion sort, specified as a function and implemented in place on
  an array.
- `Strings`: the string comparison, lowercasing and substring test.
- `Counting`: the counting `reduce` into a dictionary, written as a loop over
  a map, and the entries it yields.
- The component modules: `DataMapper`, `Charts`, `StatsCards`, `DataTable`,
  `Sidebar`, `DashboardPage` and `TrialsPanel`.

The model follows the code, including where it does less than a reader might expect. In
particular:

- the category chart lists every category; there is no "top six and Others"
  bucket;
- the percent parse reads only a digit run directly followed by `%`. A decimal
  such as `12.5%` gives 5, a fraction without `%` gives 0, and nothing is
  scaled by 100;
- a percent above 100 is not clamped and falls in the 80-99% range.

The state of the table and of the page are classes whose methods update
their fields. The counting reduce and the in-place sort of a copied array are
methods with loops, proved against the specification functions `Tally` and
`SortByKey`. Everything else is functions and lemmas.

## Model

| member | source | states |
|---|---|---|
| DataMapper.TransformNeurologyData | data/dataMapper.ts:37-50 | one output record per raw row, in order, each built from the row at the same index |
| DataMapper.TransformOncologyData | data/dataMapper.ts:53-66 | one output record per raw row, in order, each built from the row at the same index |
| DataMapper.NeurologyRoundTrip | data/dataMapper.ts:40-49 | every neurology record has `disorder` set to the raw `cancerType` and no `cancerType`, and the raw row is recovered from it |
| DataMapper.OncologyRoundTrip | data/dataMapper.ts:56-65 | every oncology record has `cancerType` set to the raw value and no `disorder`, and the raw row is recovered from it |
| DataMapper.TransformsCopyFields | data/dataMapper.ts:41-48 | both transforms copy term, category, percentage, FHIR resource, standard code and unstructured text unchanged |
| DataMapper.InclusionExclusionUnchecked | data/dataMapper.ts:45 | the inclusion/exclusion text is passed through unchecked, so a value other than Inclusion or Exclusion survives |
| DataMapper.CancerListsArePrefixes | data/dataMapper.ts:138-248 | each oncology "X Cancer" trial list is a proper prefix of the "X" list |
| Sidebar.SidebarLabelsAreMapped | frontend/components/DashBoard/Sidebar.tsx:27-41 | every sidebar label of a domain is a key of that domain's trial table, with a non-empty list |
| Charts.DisorderFilterSpec | frontend/components/DashBoard/Charts.tsx:38-45 | with no selection (absent or empty) the data is unchanged; otherwise the result is an order-preserving subsequence holding exactly the records whose domain label equals the selection, each as often as in the data |
| Charts.CrossDomainSelectionIsEmpty | frontend/components/DashBoard/Charts.tsx:41-43 | records of one domain never match a selection made under the other domain |
| Charts.CategoryData | frontend/components/DashBoard/Charts.tsx:47-59 | there is one entry per distinct category, with that category's number of records; the counts sum to the number of records and never increase; entries with equal counts keep first-seen order |
| Counting.CountBy | frontend/components/DashBoard/Charts.tsx:48-54 | the accumulator loop yields the keys in first-seen order and each key's number of occurrences |
| Counting.TallySum | frontend/components/DashBoard/Charts.tsx:48-57 | the counts of the entries sum to the number of records counted |
| Counting.TallyEntries | frontend/components/DashBoard/Charts.tsx:56-57 | the entries list each distinct key once, in first-seen order, each with its positive number of occurrences |
| Counting.SortKeepsSum | frontend/components/DashBoard/Charts.tsx:58 | sorting the entries keeps the total of their counts |
| Charts.ParsePercentSpec | frontend/components/DashBoard/Charts.tsx:64-65 | the parsed percent is the value of the first maximal digit run directly followed by `%`, and 0 when there is none |
| Charts.ParsePercentExamples | frontend/components/DashBoard/Charts.tsx:64-65 | "85%" parses as 85, "100%" as 100 and "12.5%" as 5 |
| Charts.ParsePercentWithoutPercentSign | frontend/components/DashBoard/Charts.tsx:64-65 | text without `%`, such as a bare fraction, parses as 0 |
| Charts.RunEnd | frontend/components/DashBoard/Charts.tsx:64 | the greedy digit run from a position ends at the first non-digit or at the end of the text |
| Charts.BucketSpec | frontend/components/DashBoard/Charts.tsx:67-78 | each percent is in exactly one range: 100 alone in 100%, any other value of 80 or more (above 100 too) in 80-99%, then 60-79, 40-59, 20-39 and below 20 |
| Charts.RangeOrderSpec | frontend/components/DashBoard/Charts.tsx:86 | the display order lists each of the six ranges once, in index order, with labels 100%, 80-99%, 60-79%, 40-59%, 20-39%, 0-19% |
| Charts.EmitInOrderSpec | frontend/components/DashBoard/Charts.tsx:87-89 | the emitted entries are exactly the ranges of the order with a positive count, with that count, in the order's sequence |
| Charts.EmitSum | frontend/components/DashBoard/Charts.tsx:87-89 | dropping empty ranges does not change the total count |
| Charts.TrialFrequencyData | frontend/components/DashBoard/Charts.tsx:61-90 | each emitted count is at least 1 and equals the number of records in its range; a range is emitted exactly when some record falls in it; ranges come in display order; the counts sum to the number of records |
| Charts.FrequencyFacts | frontend/components/DashBoard/Charts.tsx:80-89 | over the ranges of the records, the emitted histogram has positive counts equal to the multiplicities, the emitted ranges are exactly those present, in ascending display order, and the counts sum to the number of records |
| StatsCards.ComputeStats | frontend/components/DashBoard/StatsCards.tsx:24-63 | the distinct-category count and the high-frequency count are at most the total, and the total is at most the size of the data |
| StatsCards.StatsSpec | frontend/components/DashBoard/StatsCards.tsx:25-55 | the total is the size of the selection-filtered records and the sum of the category counts; the distinct-category count is the number of category entries and is 0 exactly when the total is; the high-frequency count is the sum of the 100% and 80-99% histogram ranges; and the most common category is `N/A` without records and otherwise the first most common category, with the empty string shown as `N/A` |
| StatsCards.HighFrequencyIsTopBuckets | frontend/components/DashBoard/StatsCards.tsx:38-42 | the records with a percent of at least 80 are exactly those in the 100% and 80-99% ranges |
| StatsCards.MostCommonCategorySpec | frontend/components/DashBoard/StatsCards.tsx:45-55 | with no categories the result is `N/A`; otherwise the head of the sorted tally is a category with the largest count and the first seen among ties, and the result is that category or `N/A` when it is empty |
| StatsCards.SortedTallyHead | frontend/components/DashBoard/StatsCards.tsx:53-54 | the head of the tally sorted by count, largest first, occurs in the data, has the largest count, and is the first seen among the categories with that count |
| StatsCards.FirstMostCommonUnique | frontend/components/DashBoard/StatsCards.tsx:53-55 | at most one category is the first most common one |
| StatsCards.StatsWithoutSelection | frontend/components/DashBoard/StatsCards.tsx:25-31 | an absent and an empty selection give the same statistics, whose total is the whole data set |
| DataTable.TableFilterSpec | frontend/components/DashBoard/DataTable.tsx:33-61 | the three filters keep exactly the records that pass the selection, the case-insensitive search over term, category and code, and the category filter, each inactive when empty; the result is an order-preserving subsequence, and with all three inactive it is the data itself |
| DataTable.TableFilterIsOneFilter | frontend/components/DashBoard/DataTable.tsx:37-58 | the three filters in a row equal one filter by the conjunction of the three tests |
| DataTable.SearchIgnoresCase | frontend/components/DashBoard/DataTable.tsx:49-51 | two search texts that differ only in the case of ASCII letters keep exactly the same records |
| DataTable.SearchIgnoresCaseExample | frontend/components/DashBoard/DataTable.tsx:49-51 | "ALZ" and "alz" find the same records |
| DataTable.EmptySearchMatchesAll | frontend/components/DashBoard/DataTable.tsx:46-53 | the empty search text matches every record |
| DataTable.SortedData | frontend/components/DashBoard/DataTable.tsx:63-74 | the sorted copy holds the same records; neighbours are ordered by the field value, a missing value counting as the empty string, ascending or with the comparison reversed for descending; records with equal values keep their filtered order |
| DataTable.PercentColumnSortsAsText | frontend/components/DashBoard/DataTable.tsx:65-70 | the percentage column sorts as text: ascending, "100%" comes before "85%" although 100 is larger |
| DataTable.ToggleTwice | frontend/components/DashBoard/DataTable.tsx:76-83 | a click always sorts by the clicked column; clicking the sorted column twice restores the direction; a new column starts ascending and a second click makes it descending |
| DataTable.TableState.HandleSort | frontend/components/DashBoard/DataTable.tsx:76-83 | the sort state becomes the toggle of the old one, and the search text and category filter are unchanged |
| DataTable.TableState.HandleLabelSort | frontend/components/DashBoard/DataTable.tsx:149-151 | the label column's header toggles the sort on the domain's label field |
| DataTable.TableState.SetSearchTerm | frontend/components/DashBoard/DataTable.tsx:111 | the search text is replaced and nothing else changes |
| DataTable.TableState.SetCategoryFilter | frontend/components/DashBoard/DataTable.tsx:119 | the category filter is replaced and nothing else changes |
| DataTable.TableState.Rows | frontend/components/DashBoard/DataTable.tsx:33-74 | the rows shown are the filtered records sorted by the current state, holding the same records as one filter by the three tests |
| DataTable.TableState.constructor | frontend/components/DashBoard/DataTable.tsx:28-31 | the table starts sorted by term, ascending, with no search text and no category filter |
| DataTable.CategoryOptions | frontend/components/DashBoard/DataTable.tsx:85-88 | the options are the categories of the whole data set, not the filtered one, each once, in strictly ascending order |
| StableSort.SortPermutes | frontend/components/DashBoard/DataTable.tsx:64 | sorting keeps the multiset of elements |
| StableSort.SortSorted | frontend/components/DashBoard/DataTable.tsx:64-73 | for a strict order, no element of the sorted list sorts before its predecessor |
| StableSort.SortStable | frontend/components/DashBoard/DataTable.tsx:64-73 | elements with equal keys keep their relative order |
| StableSort.SortIdempotent | frontend/components/DashBoard/DataTable.tsx:64-73 | sorting an already sorted list changes nothing |
| StableSort.SortInPlace | frontend/components/DashBoard/DataTable.tsx:64 | the in-place insertion sort leaves the array equal to the sorted function of its old contents |
| StableSort.SortedCopy | frontend/components/DashBoard/DataTable.tsx:64 | sorting a copy yields the stable sort of the input and leaves the input as it was |
| Strings.StrLtIsStrictTotal | frontend/components/DashBoard/DataTable.tsx:69-71 | the string order is irreflexive, transitive and total on distinct strings |
| Strings.LowerSpec | frontend/components/DashBoard/DataTable.tsx:49-51 | lowercasing turns each upper-case ASCII letter into its lower-case counterpart, changes nothing else, leaves no upper-case letter and is idempotent |
| Strings.LowerEqualIgnoringCase | frontend/components/DashBoard/DataTable.tsx:49-51 | two texts lowercase to the same text exactly when they differ at most in the case of ASCII letters |
| Strings.ContainsSpec | frontend/components/DashBoard/DataTable.tsx:49-51 | the substring test holds exactly when the needle occurs at some position |
| DashboardPage.Dashboard.constructor | frontend/components/DashBoard/DashBoardPage.tsx:21-26 | the page starts on the neurology tab with Alzheimer's Disease selected, which has trials to show |
| DashboardPage.SelectedDataIsTagged | frontend/components/DashBoard/DashBoardPage.tsx:39-42 | the data set the tab selects consists of records tagged for that tab's domain |
| DashboardPage.DefaultSubTabIsMapped | frontend/components/DashBoard/DashBoardPage.tsx:56-58 | each domain's reset sub-tab is its first sidebar label and has a non-empty trial list |
| DashboardPage.OtherDomainLabelsHaveNoTrials | frontend/components/DashBoard/DashBoardPage.tsx:45-51 | a label of the other domain is not a key of this domain's table, so its lookup falls back to the empty list |
| DashboardPage.Dashboard.HandleTabChange | frontend/components/DashBoard/DashBoardPage.tsx:54-59 | the tab becomes the chosen one and the sub-tab its default, Alzheimer's Disease or Lung Cancer, and the trial list is then non-empty |
| DashboardPage.Dashboard.HandleSubTabChange | frontend/components/DashBoard/DashBoardPage.tsx:61 | only the sub-tab changes, and a sub-tab offered by the sidebar has a non-empty trial list |
| TrialsPanel.TrialLinks | frontend/components/DashBoard/TrialsPanel.tsx:40-60 | one link per trial, in the order of the trial list |
| TrialsPanel.TrialLinksSpec | frontend/components/DashBoard/TrialsPanel.tsx:40-60 | each link carries its own trial's target, from which the trial's registry id is read back |
| TrialsPanel.HrefSpec | frontend/components/DashBoard/TrialsPanel.tsx:41-44 | the target is `#` exactly when the trial has no id, absent or empty; otherwise it is the registry prefix followed by the id, which is read back from it |
| TrialsPanel.NoteCountMatchesLinks | frontend/components/DashBoard/TrialsPanel.tsx:67 | the note's trial count is the number of links shown |

## Left out

- Rendering is not modelled: the charts, animation, icons, colour classes, the sort icon and the header and note text.
- The `useMemo` and `useState` mechanics are not modelled. Each memo is the function it caches, and each state setter is a field assignment.
- Reading the JSON data sets is not modelled: the raw rows are input sequences.
- The trial-to-registry-id table (`data/trialCodes`) is not part of this model. It is a `map` parameter of the trials panel.
- `localeCompare` and the default array sort are modelled as lexicographic order on characters. Locale collation is not modelled.
- `toLowerCase` is modelled as ASCII lowercasing. Unicode case mapping is not modelled.
- `parseInt` is modelled as exact arithmetic on unbounded naturals. JavaScript number precision on very long digit runs is not modelled.
- An object's key order is modelled as insertion order. JavaScript lists integer-like keys such as "2024" first; this does not arise for the range labels but could for numeric category names.
- Prototype keys are not modelled: a category named `__proto__` or a sub-tab named `constructor` behaves differently in JavaScript.
- The JavaScript sort is modelled by a stable insertion sort; the engine's actual algorithm is not modelled, only its results (sorted, a permutation, stable).
- DashboardPage.Dashboard.HandleTabChange: takes a `Domain`, while the source accepts any string and casts it unchecked; a string other than the two tab names would make the trial lookup fail, and that path is not modelled.
- DashboardPage.LookupTrials: the empty-list fallback is modelled for labels missing from the table; a label that maps to an inherited object property is not.

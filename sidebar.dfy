/** The sidebar's sub-tab labels per domain, and their agreement with the trial table. */
module Sidebar {
  import opened DataMapper

  const NeurologyItems: seq<string> := [
    "Alzheimer's Disease", "Parkinson's Disease", "Epilepsy",
    "Multiple Sclerosis", "ALS", "Huntington's Disease"]

  const OncologyItems: seq<string> := ["Lung Cancer", "Breast Cancer", "Blood Cancer", "Skin Cancer"]

  /** The labels the sidebar offers under a domain's tab. */
  function Items(d: Domain): seq<string> {
    if d == Neurology then NeurologyItems else OncologyItems
  }

  /**
   * Every label the sidebar offers is a key of the domain's trial table with
   * a non-empty list, so a lookup driven by the sidebar never falls back to
   * the empty list.
   */
  lemma SidebarLabelsAreMapped(d: Domain)
    ensures forall name :: name in Items(d) ==> name in TrialMappings(d) && TrialMappings(d)[name] != []
  {
  }
}

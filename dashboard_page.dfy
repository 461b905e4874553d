/**
 * The dashboard page: the active domain tab and sub-tab, the data set the
 * tab selects, and the trial list the pair looks up.
 */
module DashboardPage {
  import opened DataMapper
  import opened Sidebar

  /** The sub-tab a tab change switches to. */
  function DefaultSubTab(d: Domain): string {
    if d == Neurology then "Alzheimer's Disease" else "Lung Cancer"
  }

  /** `currentTrials`: the table's list for the label, or the empty list when the label is not a key. */
  function LookupTrials(d: Domain, name: string): seq<string> {
    if name in TrialMappings(d) then TrialMappings(d)[name] else []
  }

  /**
   * A label of the other domain is not a key of this domain's table, so a
   * sub-tab left over from the other tab looks up the empty list.
   */
  lemma OtherDomainLabelsHaveNoTrials()
    ensures forall name :: name in Items(Neurology) ==> LookupTrials(Oncology, name) == []
    ensures forall name :: name in Items(Oncology) ==> LookupTrials(Neurology, name) == []
  {
  }

  /** `currentData`: the neurology records on the neurology tab, else the oncology records. */
  function SelectData<T>(d: Domain, neurology: seq<T>, oncology: seq<T>): seq<T> {
    if d == Neurology then neurology else oncology
  }

  /** The data set the tab selects consists of records tagged for that tab's domain. */
  lemma SelectedDataIsTagged(d: Domain, neurologyRaws: seq<RawRecord>, oncologyRaws: seq<RawRecord>)
    ensures var data := SelectData(d, TransformNeurologyData(neurologyRaws), TransformOncologyData(oncologyRaws));
      forall i :: 0 <= i < |data| ==> TaggedFor(data[i], d)
  {
  }

  /** Each domain's reset sub-tab is the first label in the sidebar and has a non-empty trial list. */
  lemma DefaultSubTabIsMapped(d: Domain)
    ensures Items(d) != [] && Items(d)[0] == DefaultSubTab(d)
    ensures DefaultSubTab(d) in TrialMappings(d)
    ensures LookupTrials(d, DefaultSubTab(d)) != []
  {
    SidebarLabelsAreMapped(d);
  }

  /** The page's two pieces of state. */
  class Dashboard {
    var activeTab: Domain
    var activeSubTab: string

    /** The neurology tab with Alzheimer's Disease selected, which has trials to show. */
    constructor()
      ensures activeTab == Neurology && activeSubTab == "Alzheimer's Disease"
      ensures CurrentTrials() != []
    {
      activeTab := Neurology;
      activeSubTab := "Alzheimer's Disease";
      DefaultSubTabIsMapped(Neurology);
    }

    function CurrentTrials(): seq<string>
      reads this
    {
      LookupTrials(activeTab, activeSubTab)
    }

    function CurrentData<T>(neurology: seq<T>, oncology: seq<T>): seq<T>
      reads this
    {
      SelectData(activeTab, neurology, oncology)
    }

    /** Switching the tab resets the sub-tab to the domain's default, which always has trials. */
    method HandleTabChange(tab: Domain)
      modifies this
      ensures activeTab == tab && activeSubTab == DefaultSubTab(tab)
      ensures CurrentTrials() != []
    {
      activeTab := tab;
      activeSubTab := if tab == Neurology then "Alzheimer's Disease" else "Lung Cancer";
      DefaultSubTabIsMapped(tab);
    }

    /** Choosing a sub-tab changes only the sub-tab; one offered by the sidebar has trials. */
    method HandleSubTabChange(subTab: string)
      modifies this
      ensures activeSubTab == subTab && activeTab == old(activeTab)
      ensures subTab in Items(activeTab) ==> CurrentTrials() != []
    {
      activeSubTab := subTab;
      SidebarLabelsAreMapped(activeTab);
    }
  }
}

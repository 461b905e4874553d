/**
 * The trials panel: one link per trial name, to the trial's registry page
 * when its registry id is known and to `#` otherwise, and the trial count
 * in the note.
 */
module TrialsPanel {
  import opened Wrappers

  datatype TrialLink = TrialLink(trial: string, href: string)

  const RegistryPrefix: string := "https://clinicaltrials.gov/study/"

  /** The trial has a registry id: present in the id table and not the empty string. */
  predicate HasId(trial: string, nct: map<string, string>) {
    trial in nct && nct[trial] != ""
  }

  /** The link target of one trial. */
  function Href(trial: string, nct: map<string, string>): string {
    if HasId(trial, nct) then RegistryPrefix + nct[trial] else "#"
  }

  /** One link per trial, in the order of the trial list. */
  function TrialLinks(trials: seq<string>, nct: map<string, string>): (r: seq<TrialLink>)
    ensures |r| == |trials|
    ensures forall i :: 0 <= i < |r| ==> r[i].trial == trials[i]
  {
    seq(|trials|, i requires 0 <= i < |trials| => TrialLink(trials[i], Href(trials[i], nct)))
  }

  /** Reading the registry id back out of a link target. */
  function IdOf(href: string): Option<string> {
    if |RegistryPrefix| <= |href| && href[..|RegistryPrefix|] == RegistryPrefix
    then Some(href[|RegistryPrefix|..])
    else None
  }

  /**
   * A link points at the registry exactly when the trial has an id, and the
   * id is recovered from the link; otherwise the link is `#`.
   */
  lemma HrefSpec(trial: string, nct: map<string, string>)
    ensures Href(trial, nct) == "#" <==> !HasId(trial, nct)
    ensures HasId(trial, nct) ==> IdOf(Href(trial, nct)) == Some(nct[trial]) && |Href(trial, nct)| > |RegistryPrefix|
    ensures !HasId(trial, nct) ==> IdOf(Href(trial, nct)) == None
  {
    if HasId(trial, nct) {
      var h := Href(trial, nct);
      assert h[..|RegistryPrefix|] == RegistryPrefix;
      assert h[|RegistryPrefix|..] == nct[trial];
    }
  }

  /** The links follow the trial list: each link's target is its own trial's target. */
  lemma TrialLinksSpec(trials: seq<string>, nct: map<string, string>)
    ensures forall i :: 0 <= i < |trials| ==>
      TrialLinks(trials, nct)[i] == TrialLink(trials[i], Href(trials[i], nct))
    ensures forall i :: 0 <= i < |trials| && HasId(trials[i], nct) ==>
      IdOf(TrialLinks(trials, nct)[i].href) == Some(nct[trials[i]])
  {
    forall i | 0 <= i < |trials| && HasId(trials[i], nct)
      ensures IdOf(TrialLinks(trials, nct)[i].href) == Some(nct[trials[i]])
    {
      HrefSpec(trials[i], nct);
    }
  }

  /** The number of trials the note mentions. */
  function NoteCount(trials: seq<string>): nat {
    |trials|
  }

  /** The note's count is the number of links shown. */
  lemma NoteCountMatchesLinks(trials: seq<string>, nct: map<string, string>)
    ensures NoteCount(trials) == |TrialLinks(trials, nct)|
  {
  }
}

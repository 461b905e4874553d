/**
 * The record normaliser: the two raw dataset shapes (neurology and oncology
 * rows) become one `EligibilityTerm` shape, and the static table of trial
 * names per disorder or cancer label.
 */
module DataMapper {
  import opened Wrappers

  /** The two medical areas the dashboard shows. */
  datatype Domain = Neurology | Oncology

  /**
   * A row of either bundled dataset (the two raw shapes are identical).
   * In neurology rows `cancerType` holds the disorder name.
   */
  datatype RawRecord = RawRecord(
    term: string,
    cancerType: string,
    category: string,
    trialPercentage: string,
    inclusionExclusion: string,
    fhirResource: string,
    standardCode: string,
    unstructured: string)

  /**
   * The unified record.  `inclusionExclusion` is typed as "Inclusion" or
   * "Exclusion" in the source, but the value is cast without a check, so any
   * string can occur.
   */
  datatype EligibilityTerm = EligibilityTerm(
    term: string,
    disorder: Option<string>,
    cancerType: Option<string>,
    category: string,
    trialPercentage: string,
    inclusionExclusion: string,
    fhirResource: string,
    standardCode: string,
    unstructured: string)

  /** A neurology row: the overloaded field becomes `disorder`. */
  function NeurologyTerm(raw: RawRecord): EligibilityTerm {
    EligibilityTerm(raw.term, Some(raw.cancerType), None, raw.category, raw.trialPercentage,
                    raw.inclusionExclusion, raw.fhirResource, raw.standardCode, raw.unstructured)
  }

  /** An oncology row: the overloaded field stays `cancerType`. */
  function OncologyTerm(raw: RawRecord): EligibilityTerm {
    EligibilityTerm(raw.term, None, Some(raw.cancerType), raw.category, raw.trialPercentage,
                    raw.inclusionExclusion, raw.fhirResource, raw.standardCode, raw.unstructured)
  }

  /** `transformNeurologyData`: one unified record per raw row, in order. */
  function TransformNeurologyData(raws: seq<RawRecord>): (r: seq<EligibilityTerm>)
    ensures |r| == |raws|
    ensures forall i :: 0 <= i < |raws| ==> r[i] == NeurologyTerm(raws[i])
  {
    seq(|raws|, i requires 0 <= i < |raws| => NeurologyTerm(raws[i]))
  }

  /** `transformOncologyData`: one unified record per raw row, in order. */
  function TransformOncologyData(raws: seq<RawRecord>): (r: seq<EligibilityTerm>)
    ensures |r| == |raws|
    ensures forall i :: 0 <= i < |raws| ==> r[i] == OncologyTerm(raws[i])
  {
    seq(|raws|, i requires 0 <= i < |raws| => OncologyTerm(raws[i]))
  }

  /** The field that names the disorder (neurology) or cancer type (oncology). */
  function DomainLabel(t: EligibilityTerm, d: Domain): Option<string> {
    match d
    case Neurology => t.disorder
    case Oncology => t.cancerType
  }

  /** `t` carries exactly the label field of domain `d`, and the other field is absent. */
  predicate TaggedFor(t: EligibilityTerm, d: Domain) {
    match d
    case Neurology => t.disorder.Some? && t.cancerType.None?
    case Oncology => t.cancerType.Some? && t.disorder.None?
  }

  /** The raw row a unified record came from, given its domain; `None` if the record is not tagged for it. */
  function RawOf(t: EligibilityTerm, d: Domain): Option<RawRecord> {
    match DomainLabel(t, d)
    case None => None
    case Some(name) =>
      if !TaggedFor(t, d) then None
      else Some(RawRecord(t.term, name, t.category, t.trialPercentage, t.inclusionExclusion,
                          t.fhirResource, t.standardCode, t.unstructured))
  }

  /**
   * The normaliser loses nothing and tags every record with its domain: each
   * neurology record has `disorder` set to the raw `cancerType` and no
   * `cancerType`, and the raw row is recovered from it.
   */
  lemma NeurologyRoundTrip(raws: seq<RawRecord>)
    ensures forall i :: 0 <= i < |raws| ==>
      var t := TransformNeurologyData(raws)[i];
      && TaggedFor(t, Neurology)
      && t.disorder == Some(raws[i].cancerType)
      && RawOf(t, Neurology) == Some(raws[i])
  {
  }

  /** The same for oncology: `cancerType` is copied, `disorder` is absent, and the row is recovered. */
  lemma OncologyRoundTrip(raws: seq<RawRecord>)
    ensures forall i :: 0 <= i < |raws| ==>
      var t := TransformOncologyData(raws)[i];
      && TaggedFor(t, Oncology)
      && t.cancerType == Some(raws[i].cancerType)
      && RawOf(t, Oncology) == Some(raws[i])
  {
  }

  /** The shared fields are copied unchanged by both transforms. */
  lemma TransformsCopyFields(raw: RawRecord)
    ensures forall t :: t == NeurologyTerm(raw) || t == OncologyTerm(raw) ==>
      && t.term == raw.term && t.category == raw.category
      && t.trialPercentage == raw.trialPercentage && t.inclusionExclusion == raw.inclusionExclusion
      && t.fhirResource == raw.fhirResource && t.standardCode == raw.standardCode
      && t.unstructured == raw.unstructured
  {
  }

  /** `inclusionExclusion` is not validated: a value outside "Inclusion"/"Exclusion" passes through. */
  lemma InclusionExclusionUnchecked()
    ensures var raw := RawRecord("t", "Lung", "Lab", "50%", "Maybe", "Observation", "C1", "u");
      NeurologyTerm(raw).inclusionExclusion == "Maybe" && OncologyTerm(raw).inclusionExclusion == "Maybe"
  {
  }

  /** `trialMappings`: for each domain, label to the ordered list of trial names. */
  function TrialMappings(d: Domain): map<string, seq<string>> {
    match d
    case Neurology => map[
      "Alzheimer's Disease" := [
        "CLARITY-AD", "EMERGE", "ENGAGE", "EXPEDITION3", "GRADUATE I", "GRADUATE II",
        "TRAILBLAZER-ALZ", "AMARANTH", "TAURIEL", "DIAN-TU", "A4 Study", "TOMMORROW"],
      "Parkinson's Disease" := [
        "SPARK", "STEADY-PD III", "SURE-PD3", "PROUD", "PASADENA", "BIIB054-201",
        "PRASINEZUMAB", "CINPANEMAB"],
      "Epilepsy" := [
        "ELEVATE", "NAUTILUS", "YKP3089-E01", "REALIZE", "EPIMAG", "FREEDOM", "RESTORE-1"],
      "Multiple Sclerosis" := [
        "ASCLEPIOS I", "ASCLEPIOS II", "DECIDE", "OPERA I", "OPERA II", "LIBERTY",
        "OLYMPUS", "ORATORIO", "CLARITY", "ADVANCE"],
      "ALS" := [
        "CENTAUR", "PHOENIX", "HEALEY ALS", "VALOR", "FORTITUDE-ALS", "LIGHTHOUSE",
        "ATLAS", "COURAGE-ALS"],
      "Huntington's Disease" := [
        "GENERATION HD1", "PRECISION-HD1", "PRECISION-HD2", "SIGNAL", "PROOF-HD",
        "VIBRANT-HD", "KINECT-HD", "LEGATO-HD", "MITIGATE-HD"]]
    case Oncology => map[
      "Lung" := [
        "KEYNOTE-189", "KEYNOTE-407", "IMpower150", "ADAURA", "FLAURA", "ALEX", "ALINA",
        "CROWN", "MARIPOSA", "KEYNOTE-042", "CheckMate 9LA", "IMpower130", "KEYNOTE-024",
        "TROPION-Lung01", "DESTINY-Lung02"],
      "Breast" := [
        "KATHERINE", "APHINITY", "CLEOPATRA", "EMILIA", "DESTINY-Breast01", "MONARCH 2",
        "MONARCH 3", "PALOMA-2", "PALOMA-3", "KEYNOTE-355", "IMpassion130",
        "DESTINY-Breast03", "TROPiCS-02"],
      "Blood" := [
        "ZUMA-1", "JULIET", "SCHOLAR-1", "TRANSCEND", "CARTITUDE-1", "KarMMa", "LEGEND-2",
        "CARTITUDE-2", "ZUMA-2", "ELARA", "CARTITUDE-4", "MajesTEC-1"],
      "Skin" := [
        "KEYNOTE-006", "CheckMate 067", "COMBI-d", "COMBI-v", "COLUMBUS", "BEACON",
        "RELATIVITY-047", "DREAMseq", "KEYNOTE-716", "CheckMate 238", "IMspire150",
        "KEYNOTE-054"],
      "Lung Cancer" := [
        "KEYNOTE-189", "KEYNOTE-407", "IMpower150", "ADAURA", "FLAURA", "ALEX", "ALINA",
        "CROWN", "MARIPOSA", "KEYNOTE-042", "CheckMate 9LA"],
      "Breast Cancer" := [
        "KATHERINE", "APHINITY", "CLEOPATRA", "EMILIA", "DESTINY-Breast01", "MONARCH 2",
        "MONARCH 3", "PALOMA-2", "PALOMA-3", "KEYNOTE-355"],
      "Blood Cancer" := [
        "ZUMA-1", "JULIET", "SCHOLAR-1", "TRANSCEND", "CARTITUDE-1", "KarMMa", "LEGEND-2",
        "CARTITUDE-2", "ZUMA-2", "ELARA"],
      "Skin Cancer" := [
        "KEYNOTE-006", "CheckMate 067", "COMBI-d", "COMBI-v", "COLUMBUS", "BEACON",
        "RELATIVITY-047", "DREAMseq", "KEYNOTE-716", "CheckMate 238"]]
  }

  /**
   * As written, each "X Cancer" list of the oncology table is a proper prefix
   * of the "X" list: the shorter lists are truncated copies.
   */
  lemma CancerListsArePrefixes()
    ensures var m := TrialMappings(Oncology);
      && "Lung Cancer" in m && "Lung" in m && m["Lung Cancer"] < m["Lung"]
      && "Breast Cancer" in m && "Breast" in m && m["Breast Cancer"] < m["Breast"]
      && "Blood Cancer" in m && "Blood" in m && m["Blood Cancer"] < m["Blood"]
      && "Skin Cancer" in m && "Skin" in m && m["Skin Cancer"] < m["Skin"]
  {
  }
}

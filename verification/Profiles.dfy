// The preference document and its validation. Case folding is an arbitrary function; what a validator
// rejects is None.
module Profiles {
  import opened Wrappers
  import opened Text

  datatype Skills = Skills(mustHave: seq<string>, niceToHave: seq<string>)

  datatype Experience = Experience(min: Option<int>, max: Option<int>)

  datatype PreferenceInput = PreferenceInput(
    titles: seq<string>, skills: Skills, preferredLocations: seq<string>, workMode: seq<string>,
    experience: Experience, minimumLpa: Option<real>, preferredCompanies: seq<string>,
    exclusions: seq<string>, minimumScore: int)

  type Fold = string -> string

  const WORK_MODES := {"remote", "hybrid", "onsite"}

  function StripAll(values: seq<string>): (r: seq<string>)
    ensures |r| == |values|
    ensures forall i :: 0 <= i < |r| ==> r[i] == Strip(values[i])
  {
    if values == [] then [] else StripAll(values[..|values| - 1]) + [Strip(values[|values| - 1])]
  }

  function CleanValues(casefold: Fold, values: seq<string>): Option<seq<string>> {
    var cleaned := StripAll(values);
    if "" in cleaned then None
    else if |FoldedForms(casefold, cleaned)| != |cleaned| then None
    else Some(cleaned)
  }

  // What a cleaned list is: trimmed, without blanks, without two values of one case-folded form.
  ghost predicate Clean(casefold: Fold, values: seq<string>) {
    && (forall i :: 0 <= i < |values| ==> values[i] != "" && Stripped(values[i]))
    && (forall i, j :: 0 <= i < j < |values| ==> casefold(values[i]) != casefold(values[j]))
  }

  function FoldedForms(casefold: Fold, values: seq<string>): set<string> {
    set v | v in values :: casefold(v)
  }

  lemma FoldedSnoc(casefold: Fold, values: seq<string>, v: string)
    ensures FoldedForms(casefold, values + [v]) == FoldedForms(casefold, values) + {casefold(v)}
    ensures casefold(v) in FoldedForms(casefold, values)
        <==> exists i :: 0 <= i < |values| && casefold(values[i]) == casefold(v)
  {
  }

  ghost predicate DistinctForms(casefold: Fold, values: seq<string>) {
    forall i, j :: 0 <= i < j < |values| ==> casefold(values[i]) != casefold(values[j])
  }

  lemma DistinctSnoc(casefold: Fold, values: seq<string>, v: string)
    ensures DistinctForms(casefold, values + [v])
       <==> DistinctForms(casefold, values) && casefold(v) !in FoldedForms(casefold, values)
  {
    var longer := values + [v];
    FoldedSnoc(casefold, values, v);
    if DistinctForms(casefold, longer) {
      forall i | 0 <= i < |values| ensures casefold(values[i]) != casefold(v) {
        assert casefold(longer[i]) != casefold(longer[|values|]);
      }
      forall i, j | 0 <= i < j < |values| ensures casefold(values[i]) != casefold(values[j]) {
        assert casefold(longer[i]) != casefold(longer[j]);
      }
    }
  }

  lemma {:induction false} FoldedCount(casefold: Fold, values: seq<string>)
    ensures |FoldedForms(casefold, values)| <= |values|
    ensures |FoldedForms(casefold, values)| == |values| <==> DistinctForms(casefold, values)
  {
    if values != [] {
      var n := |values| - 1;
      FoldedCount(casefold, values[..n]);
      FoldedSnoc(casefold, values[..n], values[n]);
      DistinctSnoc(casefold, values[..n], values[n]);
      assert values == values[..n] + [values[n]];
      if casefold(values[n]) in FoldedForms(casefold, values[..n]) {
        assert FoldedForms(casefold, values) == FoldedForms(casefold, values[..n]);
      }
    }
  }

  // A list is accepted exactly when its trimmed values are non-blank and fold to distinct forms, and
  // then the trimmed values are the result.
  lemma CleanValuesAccepts(casefold: Fold, values: seq<string>)
    ensures CleanValues(casefold, values) == if Clean(casefold, StripAll(values)) then Some(StripAll(values)) else None
  {
    var cleaned := StripAll(values);
    FoldedCount(casefold, cleaned);
    forall i | 0 <= i < |values| ensures Stripped(cleaned[i]) { StripIsProjection(values[i]); }
  }

  lemma CleanValuesIdempotent(casefold: Fold, values: seq<string>)
    requires Clean(casefold, values)
    ensures CleanValues(casefold, values) == Some(values)
  {
    CleanIsStripped(casefold, values);
    CleanValuesAccepts(casefold, values);
  }

  predicate NumbersFit(p: PreferenceInput) {
    && (p.experience.min.Some? ==> p.experience.min.value >= 0)
    && (p.experience.max.Some? ==> p.experience.max.value >= 0)
    && (p.experience.min.Some? && p.experience.max.Some? ==> p.experience.min.value <= p.experience.max.value)
    && (p.minimumLpa.Some? ==> p.minimumLpa.value >= 0.0)
    && 0 <= p.minimumScore <= 100
  }

  function Validate(casefold: Fold, raw: PreferenceInput): Option<PreferenceInput> {
    var titles := CleanValues(casefold, raw.titles);
    var mustHave := CleanValues(casefold, raw.skills.mustHave);
    var niceToHave := CleanValues(casefold, raw.skills.niceToHave);
    var locations := CleanValues(casefold, raw.preferredLocations);
    var workMode := CleanValues(casefold, raw.workMode);
    var companies := CleanValues(casefold, raw.preferredCompanies);
    var exclusions := CleanValues(casefold, raw.exclusions);
    if titles.None? || mustHave.None? || niceToHave.None? || locations.None? || workMode.None?
       || companies.None? || exclusions.None? || !NumbersFit(raw) then None
    else if exists m :: m in workMode.value && m !in WORK_MODES then None
    else Some(PreferenceInput(titles.value, Skills(mustHave.value, niceToHave.value), locations.value, workMode.value,
                              raw.experience, raw.minimumLpa, companies.value, exclusions.value, raw.minimumScore))
  }

  // The document with every list trimmed, and all else as it was.
  function Trimmed(raw: PreferenceInput): PreferenceInput {
    PreferenceInput(StripAll(raw.titles), Skills(StripAll(raw.skills.mustHave), StripAll(raw.skills.niceToHave)),
                    StripAll(raw.preferredLocations), StripAll(raw.workMode), raw.experience, raw.minimumLpa,
                    StripAll(raw.preferredCompanies), StripAll(raw.exclusions), raw.minimumScore)
  }

  ghost predicate ListsClean(casefold: Fold, p: PreferenceInput) {
    && Clean(casefold, p.titles) && Clean(casefold, p.skills.mustHave) && Clean(casefold, p.skills.niceToHave)
    && Clean(casefold, p.preferredLocations) && Clean(casefold, p.workMode) && Clean(casefold, p.preferredCompanies)
    && Clean(casefold, p.exclusions)
  }

  ghost predicate ModesKnown(p: PreferenceInput) {
    forall m :: m in p.workMode ==> m == "remote" || m == "hybrid" || m == "onsite"
  }

  ghost predicate NumbersInRange(p: PreferenceInput) {
    && (match p.experience
        case Experience(Some(low), Some(high)) => 0 <= low <= high
        case Experience(Some(low), None) => 0 <= low
        case Experience(None, Some(high)) => 0 <= high
        case Experience(None, None) => true)
    && (p.minimumLpa.Some? ==> p.minimumLpa.value >= 0.0)
    && 0 <= p.minimumScore <= 100
  }

  // What a document must be, written out.
  ghost predicate ValidPreferences(casefold: Fold, p: PreferenceInput) {
    ListsClean(casefold, p) && ModesKnown(p) && NumbersInRange(p)
  }

  lemma ListsAccepted(casefold: Fold, raw: PreferenceInput)
    requires ListsClean(casefold, Trimmed(raw))
    ensures
      var t := Trimmed(raw);
      && CleanValues(casefold, raw.titles) == Some(t.titles)
      && CleanValues(casefold, raw.skills.mustHave) == Some(t.skills.mustHave)
      && CleanValues(casefold, raw.skills.niceToHave) == Some(t.skills.niceToHave)
      && CleanValues(casefold, raw.preferredLocations) == Some(t.preferredLocations)
      && CleanValues(casefold, raw.workMode) == Some(t.workMode)
      && CleanValues(casefold, raw.preferredCompanies) == Some(t.preferredCompanies)
      && CleanValues(casefold, raw.exclusions) == Some(t.exclusions)
  {
    CleanValuesAccepts(casefold, raw.titles);
    CleanValuesAccepts(casefold, raw.skills.mustHave);
    CleanValuesAccepts(casefold, raw.skills.niceToHave);
    CleanValuesAccepts(casefold, raw.preferredLocations);
    CleanValuesAccepts(casefold, raw.workMode);
    CleanValuesAccepts(casefold, raw.preferredCompanies);
    CleanValuesAccepts(casefold, raw.exclusions);
  }

  lemma ListsRefused(casefold: Fold, raw: PreferenceInput)
    requires Validate(casefold, raw).Some?
    ensures ListsClean(casefold, Trimmed(raw))
  {
    CleanValuesAccepts(casefold, raw.titles);
    CleanValuesAccepts(casefold, raw.skills.mustHave);
    CleanValuesAccepts(casefold, raw.skills.niceToHave);
    CleanValuesAccepts(casefold, raw.preferredLocations);
    CleanValuesAccepts(casefold, raw.workMode);
    CleanValuesAccepts(casefold, raw.preferredCompanies);
    CleanValuesAccepts(casefold, raw.exclusions);
  }

  lemma NumbersMean(p: PreferenceInput)
    ensures NumbersFit(p) <==> NumbersInRange(p)
  {
  }

  lemma ModesMean(p: PreferenceInput)
    ensures (exists m :: m in p.workMode && m !in WORK_MODES) <==> !ModesKnown(p)
  {
  }

  lemma ValidValidates(casefold: Fold, raw: PreferenceInput)
    requires ValidPreferences(casefold, Trimmed(raw))
    ensures Validate(casefold, raw) == Some(Trimmed(raw))
  {
    NumbersMean(raw);
    ModesMean(Trimmed(raw));
    ListsAccepted(casefold, raw);
  }

  lemma ValidatedIsValid(casefold: Fold, raw: PreferenceInput)
    requires Validate(casefold, raw).Some?
    ensures ValidPreferences(casefold, Trimmed(raw))
  {
    NumbersMean(raw);
    ListsRefused(casefold, raw);
    ListsAccepted(casefold, raw);
    ModesMean(Trimmed(raw));
  }

  // Which documents are accepted, and as what: exactly those that are valid once trimmed, and then
  // the trimmed document is the result.
  lemma ValidateExact(casefold: Fold, raw: PreferenceInput)
    ensures Validate(casefold, raw) == if ValidPreferences(casefold, Trimmed(raw)) then Some(Trimmed(raw)) else None
  {
    if ValidPreferences(casefold, Trimmed(raw)) {
      ValidValidates(casefold, raw);
    } else if Validate(casefold, raw).Some? {
      ValidatedIsValid(casefold, raw);
    }
  }

  // ---------------------------------------------------------------- reading back

  lemma CleanIsStripped(casefold: Fold, values: seq<string>)
    requires Clean(casefold, values)
    ensures StripAll(values) == values
  {
    forall i | 0 <= i < |values| ensures Strip(values[i]) == values[i] { StripIsProjection(values[i]); }
  }

  lemma ValidIsTrimmed(casefold: Fold, p: PreferenceInput)
    requires ListsClean(casefold, p)
    ensures Trimmed(p) == p
  {
    CleanIsStripped(casefold, p.titles);
    CleanIsStripped(casefold, p.skills.mustHave);
    CleanIsStripped(casefold, p.skills.niceToHave);
    CleanIsStripped(casefold, p.preferredLocations);
    CleanIsStripped(casefold, p.workMode);
    CleanIsStripped(casefold, p.preferredCompanies);
    CleanIsStripped(casefold, p.exclusions);
  }

  // Validation accepts its own results unchanged, and these are exactly the valid documents: a stored
  // configuration reads back as the preferences that were written.
  lemma ProfileRoundTrip(casefold: Fold, raw: PreferenceInput)
    ensures Validate(casefold, raw).Some? ==>
      var p := Validate(casefold, raw).value;
      ValidPreferences(casefold, p) && Validate(casefold, p) == Some(p)
    ensures ValidPreferences(casefold, raw) <==> Validate(casefold, raw) == Some(raw)
  {
    ValidateExact(casefold, raw);
    if ValidPreferences(casefold, Trimmed(raw)) { ValidIsFixed(casefold, Trimmed(raw)); }
    if ValidPreferences(casefold, raw) { ValidIsFixed(casefold, raw); }
  }

  lemma ValidIsFixed(casefold: Fold, p: PreferenceInput)
    requires ValidPreferences(casefold, p)
    ensures Validate(casefold, p) == Some(p)
  {
    ValidIsTrimmed(casefold, p);
    ValidateExact(casefold, p);
  }
}

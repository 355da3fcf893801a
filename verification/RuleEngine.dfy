// Rule-based matching of a job against preferences. Case folding is an arbitrary function, and the
// skills share is floored on integers.
module RuleEngine {
  import opened Text
  import opened Catalog
  import opened Profiles

  datatype Decision = Reject | Review | Notify

  datatype Components = Components(skills: nat, experience: nat, location: nat, role: nat, salary: nat, company: nat)

  datatype MatchDecision = MatchDecision(
    score: nat, decision: Decision, components: Components,
    matched: seq<string>, missing: seq<string>, concerns: seq<string>)

  predicate At(part: string, whole: string, i: int) {
    0 <= i <= |whole| - |part| && whole[i..i + |part|] == part
  }

  // Python's `part in whole` on strings.
  predicate Occurs(part: string, whole: string) {
    exists i | 0 <= i <= |whole| :: At(part, whole, i)
  }

  // A part occurs exactly when the whole is it with something before and something after.
  lemma OccursMeans(part: string, whole: string)
    ensures Occurs(part, whole) <==> exists before, after :: whole == before + part + after
  {
    if Occurs(part, whole) {
      var i :| 0 <= i <= |whole| && At(part, whole, i);
      assert whole == whole[..i] + part + whole[i + |part|..];
    }
    if exists before, after :: whole == before + part + after {
      var before, after :| whole == before + part + after;
      assert whole[|before|..|before| + |part|] == part;
      assert At(part, whole, |before|);
    }
  }

  function SearchText(casefold: Fold, job: Job): string {
    casefold(job.title + " " + job.description)
  }

  function Occurring(casefold: Fold, terms: seq<string>, text: string, wanted: bool): seq<string> {
    if terms == [] then []
    else
      var n := |terms| - 1;
      Occurring(casefold, terms[..n], text, wanted)
          + (if Occurs(casefold(terms[n]), text) == wanted then [terms[n]] else [])
  }

  function SkillShare(matched: nat, total: nat): nat {
    var share := matched * 40 / (if total > 1 then total else 1);
    if share < 40 then share else 40
  }

  function Total(c: Components): nat {
    c.role + c.location + c.skills + c.company
  }

  function EvaluateRules(casefold: Fold, job: Job, p: PreferenceInput): MatchDecision {
    var text := SearchText(casefold, job);
    var concerns := Occurring(casefold, p.exclusions, text, true);
    var matched := Occurring(casefold, p.skills.mustHave + p.skills.niceToHave, text, true);
    var missing := Occurring(casefold, p.skills.mustHave, text, false);
    var role := if exists t :: t in p.titles && Occurs(casefold(t), casefold(job.title)) then 10 else 0;
    var places := casefold(Join(job.locations));
    var location := if exists v :: v in p.preferredLocations && Occurs(casefold(v), places) then 15 else 0;
    var skills := SkillShare(|matched|, |p.skills.mustHave + p.skills.niceToHave|);
    var company := if exists n :: n in p.preferredCompanies && casefold(n) == casefold(job.companyName) then 5 else 0;
    var components := Components(skills, 0, location, role, 0, company);
    if concerns != [] then MatchDecision(0, Reject, components, matched, missing, concerns)
    else
      MatchDecision(Total(components), if Total(components) >= p.minimumScore then Notify else Review,
                    components, matched, missing, concerns)
  }

  // ---------------------------------------------------------------- what the parts are

  lemma {:induction false} OccurringIs(casefold: Fold, terms: seq<string>, text: string, wanted: bool)
    ensures forall t ::
              t in Occurring(casefold, terms, text, wanted) <==> (t in terms && Occurs(casefold(t), text) == wanted)
    ensures |Occurring(casefold, terms, text, wanted)| <= |terms|
    ensures |Occurring(casefold, terms, text, wanted)| == |terms|
        <==> forall t :: t in terms ==> Occurs(casefold(t), text) == wanted
  {
    if terms != [] {
      var n := |terms| - 1;
      OccurringIs(casefold, terms[..n], text, wanted);
      assert terms == terms[..n] + [terms[n]];
    }
  }

  lemma {:induction false} OccurringSplits(casefold: Fold, terms: seq<string>, text: string)
    ensures multiset(Occurring(casefold, terms, text, true)) + multiset(Occurring(casefold, terms, text, false))
        == multiset(terms)
  {
    if terms != [] {
      var n := |terms| - 1;
      OccurringSplits(casefold, terms[..n], text);
      assert terms == terms[..n] + [terms[n]];
    }
  }

  lemma {:induction false} OccurringAppend(casefold: Fold, a: seq<string>, b: seq<string>, text: string, wanted: bool)
    ensures Occurring(casefold, a + b, text, wanted)
        == Occurring(casefold, a, text, wanted) + Occurring(casefold, b, text, wanted)
  {
    if b == [] {
      assert a + b == a;
    } else {
      OccurringAppend(casefold, a, b[..|b| - 1], text, wanted);
      assert (a + b)[..|a + b| - 1] == a + b[..|b| - 1];
      assert (a + b)[|a + b| - 1] == b[|b| - 1];
    }
  }

  // A skill is matched exactly when it occurs, and a must-have skill is missing exactly when it does not.
  lemma SkillsExact(casefold: Fold, job: Job, p: PreferenceInput)
    ensures
      var d := EvaluateRules(casefold, job, p);
      var text := casefold(job.title + " " + job.description);
      && (forall s :: s in d.matched <==> s in p.skills.mustHave + p.skills.niceToHave && Occurs(casefold(s), text))
      && (forall s :: s in d.missing <==> s in p.skills.mustHave && !Occurs(casefold(s), text))
  {
    var text := SearchText(casefold, job);
    OccurringIs(casefold, p.skills.mustHave + p.skills.niceToHave, text, true);
    OccurringIs(casefold, p.skills.mustHave, text, false);
  }

  // Every must-have skill is counted once, as matched or as missing; matched adds the nice-to-have
  // skills that occur, and nothing else.
  lemma SkillsConserved(casefold: Fold, job: Job, p: PreferenceInput)
    ensures
      var d := EvaluateRules(casefold, job, p);
      var text := casefold(job.title + " " + job.description);
      && multiset(d.matched) + multiset(d.missing)
         == multiset(p.skills.mustHave)
             + multiset(Occurring(casefold, p.skills.niceToHave, text, true))
      && (forall s :: s in p.skills.mustHave ==> (s in d.matched) != (s in d.missing))
  {
    var text := SearchText(casefold, job);
    OccurringAppend(casefold, p.skills.mustHave, p.skills.niceToHave, text, true);
    OccurringSplits(casefold, p.skills.mustHave, text);
    SkillsExact(casefold, job, p);
  }

  lemma DivisionLaw(a: nat, b: nat)
    requires b > 0
    ensures (a / b) * b <= a < (a / b + 1) * b
  {
    assert a == a / b * b + a % b;
    assert (a / b + 1) * b == a / b * b + b;
  }

  lemma MulOrder(a: nat, b: nat, c: nat)
    requires c > 0
    ensures a >= b <==> a * c >= b * c
  {
    if a >= b {
      assert (a - b) * c >= 0;
    } else {
      assert (b - a) * c > 0;
    }
    assert (a - b) * c == a * c - b * c;
  }

  lemma ShareBounds(matched: nat, total: nat)
    requires matched <= total
    ensures SkillShare(matched, total) <= 40
    ensures total > 0 ==> (SkillShare(matched, total) == 40 <==> matched == total)
    ensures total > 0 ==> SkillShare(matched, total) * total <= matched * 40 < (SkillShare(matched, total) + 1) * total
  {
    if total > 0 {
      var share := SkillShare(matched, total);
      DivisionLaw(matched * 40, total);
      MulOrder(share, 41, total);
      MulOrder(share + 1, 41, total);
    }
  }

  // The score is at most 70 and is the sum of its parts unless an exclusion hits; the skills part is
  // full exactly when every skill occurs.
  lemma ScoreShape(casefold: Fold, job: Job, p: PreferenceInput)
    ensures
      var d := EvaluateRules(casefold, job, p);
      var wanted := p.skills.mustHave + p.skills.niceToHave;
      && d.score <= 70
      && d.score == (if d.concerns != [] then 0
                     else d.components.role + d.components.location + d.components.skills + d.components.company)
      && d.components.experience == 0 && d.components.salary == 0
      && (wanted != [] ==>
          && (d.components.skills == 40
              <==> forall s :: s in wanted ==> Occurs(casefold(s), casefold(job.title + " " + job.description)))
          && d.components.skills * |wanted| <= |d.matched| * 40 < (d.components.skills + 1) * |wanted|)
      && (wanted == [] ==> d.components.skills == 0)
  {
    var wanted := p.skills.mustHave + p.skills.niceToHave;
    OccurringIs(casefold, wanted, SearchText(casefold, job), true);
    ShareBounds(|Occurring(casefold, wanted, SearchText(casefold, job), true)|, |wanted|);
  }

  ghost predicate Titled(casefold: Fold, job: Job, p: PreferenceInput) {
    exists t :: t in p.titles && Occurs(casefold(t), casefold(job.title))
  }

  ghost predicate Located(casefold: Fold, job: Job, p: PreferenceInput) {
    exists v :: v in p.preferredLocations && Occurs(casefold(v), casefold(Join(job.locations)))
  }

  ghost predicate Preferred(casefold: Fold, job: Job, p: PreferenceInput) {
    exists n :: n in p.preferredCompanies && casefold(n) == casefold(job.companyName)
  }

  ghost predicate Skilled(casefold: Fold, job: Job, p: PreferenceInput) {
    var wanted := p.skills.mustHave + p.skills.niceToHave;
    wanted != [] && forall s :: s in wanted ==> Occurs(casefold(s), casefold(job.title + " " + job.description))
  }

  // What a score says about the job: 70 means that everything was hit, and below that the score tells
  // which hits there were. A part is there at all exactly when its hit is.
  lemma WeightsExact(casefold: Fold, job: Job, p: PreferenceInput)
    ensures
      var d := EvaluateRules(casefold, job, p);
      var titled, located := Titled(casefold, job, p), Located(casefold, job, p);
      var preferred, skilled := Preferred(casefold, job, p), Skilled(casefold, job, p);
      && (d.components.role > 0 <==> titled) && (d.components.location > 0 <==> located)
      && (d.components.company > 0 <==> preferred)
      && (d.score == 70 <==> d.decision != Reject && titled && located && preferred && skilled)
      && (d.decision != Reject && skilled ==>
            && (d.score >= 65 <==> titled && located)
            && (d.score >= 60 <==> located && (titled || preferred))
            && (d.score >= 55 <==> located || (titled && preferred))
            && (d.score >= 50 <==> located || titled)
            && (d.score >= 45 <==> located || titled || preferred))
  {
    ScoreShape(casefold, job, p);
    DecisionExact(casefold, job, p);
  }

  // The gate: rejected exactly when an exclusion occurs in the text, and notified exactly when none
  // does and the parts add up to the minimum score.
  lemma DecisionExact(casefold: Fold, job: Job, p: PreferenceInput)
    ensures
      var d := EvaluateRules(casefold, job, p);
      var text := casefold(job.title + " " + job.description);
      var excluded := exists t :: t in p.exclusions && Occurs(casefold(t), text);
      var sum := d.components.role + d.components.location + d.components.skills + d.components.company;
      && (d.decision == Reject <==> excluded)
      && (d.decision == Notify <==> !excluded && sum >= p.minimumScore)
      && (d.decision == Review <==> !excluded && sum < p.minimumScore)
      && (forall t :: t in d.concerns <==> t in p.exclusions && Occurs(casefold(t), text))
      && (d.decision == Notify ==> d.score >= p.minimumScore)
  {
    OccurringIs(casefold, p.exclusions, SearchText(casefold, job), true);
    var d := EvaluateRules(casefold, job, p);
    if d.concerns != [] {
      assert d.concerns[0] in d.concerns;
    }
  }

  ghost predicate FoldsByCharacter(casefold: Fold) {
    forall a: string, b: string :: casefold(a + b) == casefold(a) + casefold(b)
  }

  lemma OccursInside(part: string, before: string, whole: string, after: string)
    requires Occurs(part, whole)
    ensures Occurs(part, before + whole + after)
  {
    var i :| 0 <= i <= |whole| && At(part, whole, i);
    var all := before + whole + after;
    assert all[|before| + i..|before| + i + |part|] == part;
    assert At(part, all, |before| + i);
  }

  // Where folding works character by character, an exclusion found in the title alone or in the
  // description alone rejects the job.
  lemma ExclusionAnywhereRejects(casefold: Fold, job: Job, p: PreferenceInput, term: string)
    requires FoldsByCharacter(casefold) && term in p.exclusions
    requires Occurs(casefold(term), casefold(job.title)) || Occurs(casefold(term), casefold(job.description))
    ensures EvaluateRules(casefold, job, p).decision == Reject && EvaluateRules(casefold, job, p).score == 0
  {
    var title, gap, description := casefold(job.title), casefold(" "), casefold(job.description);
    assert SearchText(casefold, job) == title + gap + description;
    if Occurs(casefold(term), title) {
      OccursInside(casefold(term), "", title, gap + description);
      assert "" + title + (gap + description) == title + gap + description;
    } else {
      OccursInside(casefold(term), title + gap, description, "");
      assert title + gap + description + "" == title + gap + description;
    }
    DecisionExact(casefold, job, p);
  }
}

/** The ATS skill-matching engine: `calculate_skill_match` in app.py.

    Scores are exact rationals (Dafny `real`); the source rounds them to one
    decimal with `round(x, 1)`, which this model leaves out. */
module Scoring {
  import opened Skills

  /** `set(profile.get(category, []))`. */
  function SkillSet(profile: Groups, category: string): set<string> {
    Elems(Lookup(profile, category))
  }

  /** `resume_cat_skills & jd_cat_skills`. */
  function MatchedSkills(resume: Groups, jd: Groups, category: string): set<string> {
    SkillSet(resume, category) * SkillSet(jd, category)
  }

  /** `jd_cat_skills - resume_cat_skills`. */
  function MissingSkills(resume: Groups, jd: Groups, category: string): set<string> {
    SkillSet(jd, category) - SkillSet(resume, category)
  }

  /** The taxonomy categories the scorer does not skip (the job description
      lists a skill under them), in taxonomy order. */
  function ScoredCategories(taxonomy: Groups, jd: Groups): seq<string> {
    if taxonomy == [] then []
    else
      var last := taxonomy[|taxonomy| - 1].category;
      ScoredCategories(taxonomy[..|taxonomy| - 1], jd) + (if SkillSet(jd, last) != {} then [last] else [])
  }

  /** `total_points` after the category loop: ten per job-description skill. */
  function TotalPoints(taxonomy: Groups, jd: Groups): nat {
    if taxonomy == [] then 0
    else
      var last := taxonomy[|taxonomy| - 1].category;
      TotalPoints(taxonomy[..|taxonomy| - 1], jd) + |SkillSet(jd, last)| * 10
  }

  /** `earned_points` after the category loop: ten per matched skill. */
  function EarnedPoints(taxonomy: Groups, resume: Groups, jd: Groups): nat {
    if taxonomy == [] then 0
    else
      var last := taxonomy[|taxonomy| - 1].category;
      EarnedPoints(taxonomy[..|taxonomy| - 1], resume, jd) + |MatchedSkills(resume, jd, last)| * 10
  }

  /** One more taxonomy category: how the scored categories and the points
      grow when the category loop takes one more step. */
  lemma ScoringStep(taxonomy: Groups, resume: Groups, jd: Groups, i: nat)
    requires i < |taxonomy|
    ensures var c := taxonomy[i].category;
      && ScoredCategories(taxonomy[..i + 1], jd)
         == ScoredCategories(taxonomy[..i], jd) + (if SkillSet(jd, c) != {} then [c] else [])
      && TotalPoints(taxonomy[..i + 1], jd) == TotalPoints(taxonomy[..i], jd) + |SkillSet(jd, c)| * 10
      && EarnedPoints(taxonomy[..i + 1], resume, jd)
         == EarnedPoints(taxonomy[..i], resume, jd) + |MatchedSkills(resume, jd, c)| * 10
  {
    assert taxonomy[..i + 1][..i] == taxonomy[..i];
  }

  /** `(earned / total * 100) if total > 0 else 0`, exactly: the share of
      the points earned, scaled to 100, and 0 when there are no points. */
  function Percent(earned: nat, total: nat): (r: real)
    ensures total > 0 ==> r * (total as real) == (earned as real) * 100.0
    ensures total == 0 ==> r == 0.0
  {
    if total > 0 then (earned as real) / (total as real) * 100.0 else 0.0
  }

  datatype Priority = High | Medium

  /** The categories whose missing skills are reported with priority `High`. */
  const HighPriorityCategories: seq<string> := ["Technical Skills", "Tools & Platforms"]

  /** The priority of a missing skill, decided by its category alone. */
  function PriorityOf(category: string): (p: Priority)
    ensures p == High <==> category == "Technical Skills" || category == "Tools & Platforms"
  {
    if category in HighPriorityCategories then High else Medium
  }

  /** An entry of `matched_flat`: `{skill, category, confidence}`. */
  datatype MatchedEntry = MatchedEntry(skill: string, category: string, confidence: nat)

  /** An entry of `missing_flat`: `{skill, category, priority}`. */
  datatype MissingEntry = MissingEntry(skill: string, category: string, priority: Priority)

  /** An entry of `category_scores`. */
  datatype CategoryScore = CategoryScore(category: string, score: real)

  /** The dict `calculate_skill_match` returns (its always-empty `partial`
      entry is left out). */
  datatype MatchResult = MatchResult(
    matched: Groups,
    missing: Groups,
    categoryScores: seq<CategoryScore>,
    overallScore: real,
    matchedFlat: seq<MatchedEntry>,
    missingFlat: seq<MissingEntry>)

  /** The keys of `category_scores`, in order. */
  function ScoreCategories(scores: seq<CategoryScore>): seq<string> {
    seq(|scores|, i requires 0 <= i < |scores| => scores[i].category)
  }

  /** The `matched_flat` entry for one matched skill. */
  function MatchedEntryOf(skill: string, category: string): MatchedEntry {
    MatchedEntry(skill, category, 100)
  }

  /** The `missing_flat` entry for one missing skill. */
  function MissingEntryOf(skill: string, category: string): MissingEntry {
    MissingEntry(skill, category, PriorityOf(category))
  }

  /** The flat entries of one category's list, in list order. */
  function EntriesOf<E>(g: Group, entry: (string, string) -> E): seq<E> {
    seq(|g.skills|, k requires 0 <= k < |g.skills| => entry(g.skills[k], g.category))
  }

  /** The flat entries of every category's list, category by category. */
  function Flatten<E>(groups: Groups, entry: (string, string) -> E): seq<E> {
    if groups == [] then []
    else Flatten(groups[..|groups| - 1], entry) + EntriesOf(groups[|groups| - 1], entry)
  }

  /** `matched_flat`, read off `results['matched']`. */
  function FlattenMatched(groups: Groups): seq<MatchedEntry> {
    Flatten(groups, MatchedEntryOf)
  }

  /** `missing_flat`, read off `results['missing']`. */
  function FlattenMissing(groups: Groups): seq<MissingEntry> {
    Flatten(groups, MissingEntryOf)
  }

  /** A `matched` list: the matched skills of its category, each once, in some order. */
  ghost predicate MatchedGroupOk(g: Group, resume: Groups, jd: Groups) {
    Elems(g.skills) == MatchedSkills(resume, jd, g.category) && NoDup(g.skills)
  }

  /** A `missing` list: the missing skills of its category, each once, in some order. */
  ghost predicate MissingGroupOk(g: Group, resume: Groups, jd: Groups) {
    Elems(g.skills) == MissingSkills(resume, jd, g.category) && NoDup(g.skills)
  }

  /** A `category_scores` entry: the percentage of the category's points earned. */
  ghost predicate ScoreOk(s: CategoryScore, resume: Groups, jd: Groups) {
    s.score == Percent(|MatchedSkills(resume, jd, s.category)| * 10, |SkillSet(jd, s.category)| * 10)
  }

  /** What `calculate_skill_match(resume, jd)` returns over `taxonomy`: the
      matched and missing lists and the category scores exactly for the scored
      categories in taxonomy order; the overall score from the accumulated
      points; the flat lists read off the per-category lists in order. The
      order of skills within one list is not fixed (they come from a set). */
  ghost predicate IsMatchOf(res: MatchResult, taxonomy: Groups, resume: Groups, jd: Groups) {
    && Categories(res.matched) == ScoredCategories(taxonomy, jd)
    && Categories(res.missing) == ScoredCategories(taxonomy, jd)
    && ScoreCategories(res.categoryScores) == ScoredCategories(taxonomy, jd)
    && (forall g :: g in res.matched ==> MatchedGroupOk(g, resume, jd))
    && (forall g :: g in res.missing ==> MissingGroupOk(g, resume, jd))
    && (forall s :: s in res.categoryScores ==> ScoreOk(s, resume, jd))
    && res.overallScore == Percent(EarnedPoints(taxonomy, resume, jd), TotalPoints(taxonomy, jd))
    && res.matchedFlat == FlattenMatched(res.matched)
    && res.missingFlat == FlattenMissing(res.missing)
  }

  /** `list(s)`: the elements of a set, each once, in an order the model does
      not fix. */
  method ListOfSet(s: set<string>) returns (xs: seq<string>)
    ensures Elems(xs) == s && NoDup(xs) && |xs| == |s|
  {
    xs := [];
    var rest := s;
    while rest != {}
      invariant Listing(xs, rest, s)
      decreases |rest|
    {
      var x :| x in rest;
      ListingStep(xs, rest, s, x);
      xs := xs + [x];
      rest := rest - {x};
    }
  }

  /** `xs` lists, once each, the elements of `s` not left in `rest`. */
  ghost predicate Listing(xs: seq<string>, rest: set<string>, s: set<string>) {
    && Elems(xs) + rest == s
    && Elems(xs) !! rest
    && NoDup(xs)
    && |xs| + |rest| == |s|
  }

  /** Moving one element from `rest` to the end of the list keeps the listing. */
  lemma ListingStep(xs: seq<string>, rest: set<string>, s: set<string>, x: string)
    requires Listing(xs, rest, s) && x in rest
    ensures Listing(xs + [x], rest - {x}, s)
  {
    var ys := xs + [x];
    assert Elems(ys) == Elems(xs) + {x};
    assert |rest - {x}| == |rest| - 1;
    forall i, j | 0 <= i < j < |ys| ensures ys[i] != ys[j] {
      if j == |xs| {
        assert ys[i] == xs[i] && xs[i] in Elems(xs);
      } else {
        assert ys[i] == xs[i] && ys[j] == xs[j];
      }
    }
  }

  /** The body of the category loop for a category the job description
      lists skills under: its matched and missing lists, its score and the
      points it adds. */
  method ScoreCategory(category: string, resume: Groups, jd: Groups)
    returns (matchedGroup: Group, missingGroup: Group, score: CategoryScore, categoryTotal: nat, categoryEarned: nat)
    ensures matchedGroup.category == category && MatchedGroupOk(matchedGroup, resume, jd)
    ensures missingGroup.category == category && MissingGroupOk(missingGroup, resume, jd)
    ensures score.category == category && ScoreOk(score, resume, jd)
    ensures categoryTotal == |SkillSet(jd, category)| * 10
    ensures categoryEarned == |MatchedSkills(resume, jd, category)| * 10
  {
    var resumeCatSkills := SkillSet(resume, category);
    var jdCatSkills := SkillSet(jd, category);
    var matchedSet := resumeCatSkills * jdCatSkills;
    var missingSet := jdCatSkills - resumeCatSkills;
    categoryTotal := |jdCatSkills| * 10;
    categoryEarned := |matchedSet| * 10;
    var matchedList := ListOfSet(matchedSet);
    var missingList := ListOfSet(missingSet);
    matchedGroup := Group(category, matchedList);
    missingGroup := Group(category, missingList);
    var catScore := if categoryTotal > 0 then (categoryEarned as real) / (categoryTotal as real) * 100.0 else 0.0;
    score := CategoryScore(category, catScore);
  }

  /** What the category loop has built after walking the categories of
      `taxonomy` (a prefix of the whole taxonomy). */
  ghost predicate LoopState(
    taxonomy: Groups, resume: Groups, jd: Groups,
    matched: Groups, missing: Groups, scores: seq<CategoryScore>, totalPoints: nat, earnedPoints: nat)
  {
    && Categories(matched) == ScoredCategories(taxonomy, jd)
    && Categories(missing) == ScoredCategories(taxonomy, jd)
    && ScoreCategories(scores) == ScoredCategories(taxonomy, jd)
    && (forall g :: g in matched ==> MatchedGroupOk(g, resume, jd))
    && (forall g :: g in missing ==> MissingGroupOk(g, resume, jd))
    && (forall s :: s in scores ==> ScoreOk(s, resume, jd))
    && totalPoints == TotalPoints(taxonomy, jd)
    && earnedPoints == EarnedPoints(taxonomy, resume, jd)
  }

  /** Skipping a category the job description lists nothing under keeps the
      loop state. */
  lemma LoopStateSkip(
    taxonomy: Groups, resume: Groups, jd: Groups, i: nat,
    matched: Groups, missing: Groups, scores: seq<CategoryScore>, totalPoints: nat, earnedPoints: nat)
    requires i < |taxonomy| && SkillSet(jd, taxonomy[i].category) == {}
    requires LoopState(taxonomy[..i], resume, jd, matched, missing, scores, totalPoints, earnedPoints)
    ensures LoopState(taxonomy[..i + 1], resume, jd, matched, missing, scores, totalPoints, earnedPoints)
  {
    ScoringStep(taxonomy, resume, jd, i);
    assert MatchedSkills(resume, jd, taxonomy[i].category) == {};
  }

  /** Recording a scored category extends the loop state. */
  lemma LoopStateAdd(
    taxonomy: Groups, resume: Groups, jd: Groups, i: nat,
    matched: Groups, missing: Groups, scores: seq<CategoryScore>, totalPoints: nat, earnedPoints: nat,
    matchedGroup: Group, missingGroup: Group, score: CategoryScore)
    requires i < |taxonomy| && SkillSet(jd, taxonomy[i].category) != {}
    requires LoopState(taxonomy[..i], resume, jd, matched, missing, scores, totalPoints, earnedPoints)
    requires matchedGroup.category == taxonomy[i].category && MatchedGroupOk(matchedGroup, resume, jd)
    requires missingGroup.category == taxonomy[i].category && MissingGroupOk(missingGroup, resume, jd)
    requires score.category == taxonomy[i].category && ScoreOk(score, resume, jd)
    ensures var c := taxonomy[i].category;
      LoopState(taxonomy[..i + 1], resume, jd,
                matched + [matchedGroup], missing + [missingGroup], scores + [score],
                totalPoints + |SkillSet(jd, c)| * 10, earnedPoints + |MatchedSkills(resume, jd, c)| * 10)
  {
    ScoringStep(taxonomy, resume, jd, i);
    CategoriesAppend(matched, matchedGroup);
    CategoriesAppend(missing, missingGroup);
    assert ScoreCategories(scores + [score]) == ScoreCategories(scores) + [score.category];
  }

  /** The category loop of `calculate_skill_match`: walks the taxonomy keys,
      skips a category the job description lists nothing under, and otherwise
      records its matched and missing lists and its score and adds its points. */
  method ScoreAllCategories(taxonomy: Groups, resume: Groups, jd: Groups)
    returns (matched: Groups, missing: Groups, scores: seq<CategoryScore>, totalPoints: nat, earnedPoints: nat)
    ensures Categories(matched) == ScoredCategories(taxonomy, jd)
    ensures Categories(missing) == ScoredCategories(taxonomy, jd)
    ensures ScoreCategories(scores) == ScoredCategories(taxonomy, jd)
    ensures forall g :: g in matched ==> MatchedGroupOk(g, resume, jd)
    ensures forall g :: g in missing ==> MissingGroupOk(g, resume, jd)
    ensures forall s :: s in scores ==> ScoreOk(s, resume, jd)
    ensures totalPoints == TotalPoints(taxonomy, jd)
    ensures earnedPoints == EarnedPoints(taxonomy, resume, jd)
  {
    matched, missing, scores := [], [], [];
    totalPoints, earnedPoints := 0, 0;
    for i := 0 to |taxonomy|
      invariant LoopState(taxonomy[..i], resume, jd, matched, missing, scores, totalPoints, earnedPoints)
    {
      var category := taxonomy[i].category;
      if SkillSet(jd, category) == {} {
        LoopStateSkip(taxonomy, resume, jd, i, matched, missing, scores, totalPoints, earnedPoints);
        continue;
      }
      var matchedGroup, missingGroup, score, categoryTotal, categoryEarned := ScoreCategory(category, resume, jd);
      LoopStateAdd(taxonomy, resume, jd, i, matched, missing, scores, totalPoints, earnedPoints,
                   matchedGroup, missingGroup, score);
      totalPoints := totalPoints + categoryTotal;
      earnedPoints := earnedPoints + categoryEarned;
      matched := matched + [matchedGroup];
      missing := missing + [missingGroup];
      scores := scores + [score];
    }
    assert taxonomy[..|taxonomy|] == taxonomy;
  }

  /** `calculate_skill_match(resume_skills, jd_skills)` over `taxonomy`. */
  method CalculateSkillMatch(taxonomy: Groups, resume: Groups, jd: Groups) returns (res: MatchResult)
    ensures IsMatchOf(res, taxonomy, resume, jd)
  {
    var matched, missing, scores, totalPoints, earnedPoints := ScoreAllCategories(taxonomy, resume, jd);
    var overall := if totalPoints > 0 then (earnedPoints as real) / (totalPoints as real) * 100.0 else 0.0;
    var matchedFlat := FlattenMatchedLists(matched);
    var missingFlat := FlattenMissingLists(missing);
    res := MatchResult(matched, missing, scores, overall, matchedFlat, missingFlat);
  }

  /** The loop that builds `matched_flat` from `results['matched']`. */
  method FlattenMatchedLists(matched: Groups) returns (matchedFlat: seq<MatchedEntry>)
    ensures matchedFlat == FlattenMatched(matched)
  {
    matchedFlat := [];
    for i := 0 to |matched|
      invariant matchedFlat == FlattenMatched(matched[..i])
    {
      var cat := matched[i].category;
      var skills := matched[i].skills;
      for j := 0 to |skills|
        invariant matchedFlat == FlattenMatched(matched[..i]) + EntriesOf(Group(cat, skills[..j]), MatchedEntryOf)
      {
        assert EntriesOf(Group(cat, skills[..j + 1]), MatchedEntryOf)
            == EntriesOf(Group(cat, skills[..j]), MatchedEntryOf) + [MatchedEntryOf(skills[j], cat)];
        matchedFlat := matchedFlat + [MatchedEntry(skills[j], cat, 100)];
      }
      assert skills[..|skills|] == skills;
      assert matched[..i + 1][..i] == matched[..i];
    }
    assert matched[..|matched|] == matched;

  }

  /** The loop that builds `missing_flat` from `results['missing']`. */
  method FlattenMissingLists(missing: Groups) returns (missingFlat: seq<MissingEntry>)
    ensures missingFlat == FlattenMissing(missing)
  {
    missingFlat := [];
    for i := 0 to |missing|
      invariant missingFlat == FlattenMissing(missing[..i])
    {
      var cat := missing[i].category;
      var skills := missing[i].skills;
      for j := 0 to |skills|
        invariant missingFlat == FlattenMissing(missing[..i]) + EntriesOf(Group(cat, skills[..j]), MissingEntryOf)
      {
        var priority := PriorityOf(cat);
        assert EntriesOf(Group(cat, skills[..j + 1]), MissingEntryOf)
            == EntriesOf(Group(cat, skills[..j]), MissingEntryOf) + [MissingEntryOf(skills[j], cat)];
        missingFlat := missingFlat + [MissingEntry(skills[j], cat, priority)];
      }
      assert skills[..|skills|] == skills;
      assert missing[..i + 1][..i] == missing[..i];
    }
    assert missing[..|missing|] == missing;

  }
}

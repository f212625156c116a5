/** What `calculate_skill_match` guarantees: scores in [0, 100], the 0 and 100
    edge cases, and flat lists that name every job-description skill exactly
    once, as matched or as missing. */
module MatchProperties {
  import opened Text
  import opened Skills
  import opened Scoring

  // ---------------------------------------------------------------------------
  // Arithmetic of percentages and set sizes

  /** A percentage of earned over total points lies in [0, 100], and is 100
      exactly when every point is earned. */
  lemma PercentInRange(earned: nat, total: nat)
    requires earned <= total
    ensures 0.0 <= Percent(earned, total) <= 100.0
    ensures total > 0 ==> (Percent(earned, total) == 100.0 <==> earned == total)
  {
    if total > 0 {
      var q := (earned as real) / (total as real);
      assert q * (total as real) == earned as real;
      assert 0.0 <= q <= 1.0;
    }
  }

  /** Counting points ten per skill gives the same percentage as counting skills. */
  lemma PercentOfPoints(a: nat, b: nat)
    ensures Percent(a * 10, b * 10) == Percent(a, b)
  {
    if b > 0 {
      assert ((a * 10) as real) / ((b * 10) as real) == (a as real) / (b as real);
    }
  }

  /** The job-description skills of a category split into the matched and the
      missing ones; the matched ones are all of them exactly when the resume
      lists every one. */
  lemma SplitJobSkills(resume: Groups, jd: Groups, c: string)
    ensures MatchedSkills(resume, jd, c) + MissingSkills(resume, jd, c) == SkillSet(jd, c)
    ensures MatchedSkills(resume, jd, c) !! MissingSkills(resume, jd, c)
    ensures |MatchedSkills(resume, jd, c)| + |MissingSkills(resume, jd, c)| == |SkillSet(jd, c)|
    ensures |MatchedSkills(resume, jd, c)| == |SkillSet(jd, c)| <==> SkillSet(jd, c) <= SkillSet(resume, c)
  {
    var m, x := MatchedSkills(resume, jd, c), MissingSkills(resume, jd, c);
    assert m + x == SkillSet(jd, c);
    assert |m + x| == |m| + |x|;
    if |x| == 0 {
      assert x == {};
    }
  }

  // ---------------------------------------------------------------------------
  // Points and scored categories

  /** No category earns more than it is worth, so neither does the taxonomy. */
  lemma {:induction false} EarnedAtMostTotal(taxonomy: Groups, resume: Groups, jd: Groups)
    ensures EarnedPoints(taxonomy, resume, jd) <= TotalPoints(taxonomy, jd)
  {
    if taxonomy != [] {
      EarnedAtMostTotal(taxonomy[..|taxonomy| - 1], resume, jd);
      SplitJobSkills(resume, jd, taxonomy[|taxonomy| - 1].category);
    }
  }

  /** A category is scored exactly when it is a taxonomy key and the job
      description lists a skill under it; scored categories are distinct when
      the taxonomy keys are; nothing is scored exactly when there are no points. */
  lemma {:induction false} ScoredCategoriesSpec(taxonomy: Groups, jd: Groups)
    ensures forall c :: c in ScoredCategories(taxonomy, jd) <==> c in Categories(taxonomy) && SkillSet(jd, c) != {}
    ensures DistinctCategories(taxonomy) ==> NoDup(ScoredCategories(taxonomy, jd))
    ensures ScoredCategories(taxonomy, jd) == [] <==> TotalPoints(taxonomy, jd) == 0
  {
    if taxonomy != [] {
      var init := taxonomy[..|taxonomy| - 1];
      var c := taxonomy[|taxonomy| - 1].category;
      ScoredCategoriesSpec(init, jd);
      assert Categories(taxonomy) == Categories(init) + [c];
      if DistinctCategories(taxonomy) {
        assert DistinctCategories(init);
        assert c !in Categories(init) by {
          forall i | 0 <= i < |init| ensures Categories(init)[i] != c {
            assert taxonomy[i].category != taxonomy[|taxonomy| - 1].category;
          }
        }
      }
    }
  }

  /** The resume covers the job description: in every taxonomy category, every
      skill the job description lists the resume lists too. */
  ghost predicate Covers(taxonomy: Groups, resume: Groups, jd: Groups) {
    forall i :: 0 <= i < |taxonomy| ==> SkillSet(jd, taxonomy[i].category) <= SkillSet(resume, taxonomy[i].category)
  }

  /** The job description lists a skill under some taxonomy category. */
  ghost predicate ListsSomeSkill(taxonomy: Groups, jd: Groups) {
    exists i :: 0 <= i < |taxonomy| && SkillSet(jd, taxonomy[i].category) != {}
  }

  /** Covering a taxonomy is covering all but its last category, and that one. */
  lemma CoversStep(taxonomy: Groups, resume: Groups, jd: Groups)
    requires taxonomy != []
    ensures var c := taxonomy[|taxonomy| - 1].category;
      Covers(taxonomy, resume, jd) <==>
      Covers(taxonomy[..|taxonomy| - 1], resume, jd) && SkillSet(jd, c) <= SkillSet(resume, c)
  {
    var init := taxonomy[..|taxonomy| - 1];
    assert forall i :: 0 <= i < |init| ==> init[i] == taxonomy[i];
  }

  /** Every point is earned exactly when the resume covers the job description. */
  lemma {:induction false} AllEarnedIffCovered(taxonomy: Groups, resume: Groups, jd: Groups)
    ensures EarnedPoints(taxonomy, resume, jd) == TotalPoints(taxonomy, jd) <==> Covers(taxonomy, resume, jd)
  {
    if taxonomy != [] {
      var n := |taxonomy|;
      var init := taxonomy[..n - 1];
      var c := taxonomy[n - 1].category;
      AllEarnedIffCovered(init, resume, jd);
      EarnedAtMostTotal(init, resume, jd);
      SplitJobSkills(resume, jd, c);
      CoversStep(taxonomy, resume, jd);
      var m, j := |MatchedSkills(resume, jd, c)|, |SkillSet(jd, c)|;
      assert EarnedPoints(taxonomy, resume, jd) == EarnedPoints(init, resume, jd) + m * 10;
      assert TotalPoints(taxonomy, jd) == TotalPoints(init, jd) + j * 10;
    }
  }

  /** Listing a skill under some category of a taxonomy is listing one
      under all but its last category, or under that one. */
  lemma ListsSomeSkillStep(taxonomy: Groups, jd: Groups)
    requires taxonomy != []
    ensures ListsSomeSkill(taxonomy, jd) <==>
      ListsSomeSkill(taxonomy[..|taxonomy| - 1], jd) || SkillSet(jd, taxonomy[|taxonomy| - 1].category) != {}
  {
    var n := |taxonomy|;
    var init := taxonomy[..n - 1];
    if ListsSomeSkill(taxonomy, jd) && SkillSet(jd, taxonomy[n - 1].category) == {} {
      var i :| 0 <= i < n && SkillSet(jd, taxonomy[i].category) != {};
      assert init[i] == taxonomy[i];
    }
    if ListsSomeSkill(init, jd) {
      var i :| 0 <= i < n - 1 && SkillSet(jd, init[i].category) != {};
      assert init[i] == taxonomy[i];
    }
  }

  /** There are points exactly when the job description lists some skill
      under a taxonomy category. */
  lemma {:induction false} PointsIffListsSome(taxonomy: Groups, jd: Groups)
    ensures TotalPoints(taxonomy, jd) > 0 <==> ListsSomeSkill(taxonomy, jd)
  {
    if taxonomy != [] {
      PointsIffListsSome(taxonomy[..|taxonomy| - 1], jd);
      ListsSomeSkillStep(taxonomy, jd);
    }
  }

  /** When the job description lists nothing under any taxonomy category, no
      category is scored and there are no points. */
  lemma {:induction false} NothingListedNothingScored(taxonomy: Groups, jd: Groups)
    requires forall i :: 0 <= i < |taxonomy| ==> SkillSet(jd, taxonomy[i].category) == {}
    ensures ScoredCategories(taxonomy, jd) == [] && TotalPoints(taxonomy, jd) == 0
  {
    if taxonomy != [] {
      var init := taxonomy[..|taxonomy| - 1];
      assert forall i :: 0 <= i < |init| ==> init[i] == taxonomy[i];
      NothingListedNothingScored(init, jd);
    }
  }

  // ---------------------------------------------------------------------------
  // Flattening

  /** The number of skills over all lists of an ordered dict. */
  function SkillCount(groups: Groups): nat {
    if groups == [] then 0 else SkillCount(groups[..|groups| - 1]) + |groups[|groups| - 1].skills|
  }

  /** The flat list has one entry per listed skill. */
  lemma {:induction false} FlattenLength<E>(groups: Groups, entry: (string, string) -> E)
    ensures |Flatten(groups, entry)| == SkillCount(groups)
  {
    if groups != [] {
      FlattenLength(groups[..|groups| - 1], entry);
    }
  }

  /** An entry is in the flat list exactly when it is made from a skill of one
      of the lists and that list's category. */
  lemma {:induction false} FlattenMembers<E>(groups: Groups, entry: (string, string) -> E, e: E)
    ensures e in Flatten(groups, entry) <==>
      exists k, s :: 0 <= k < |groups| && s in groups[k].skills && e == entry(s, groups[k].category)
  {
    if groups != [] {
      var n := |groups|;
      var init := groups[..n - 1];
      var last := groups[n - 1];
      var block := EntriesOf(last, entry);
      FlattenMembers(init, entry, e);
      assert Flatten(groups, entry) == Flatten(init, entry) + block;
      if e in block {
        var j :| 0 <= j < |block| && block[j] == e;
        assert last.skills[j] in groups[n - 1].skills;
      }
      if e in Flatten(init, entry) {
        var k, s :| 0 <= k < |init| && s in init[k].skills && e == entry(s, init[k].category);
        assert groups[k] == init[k];
      }
      if exists k, s :: 0 <= k < n && s in groups[k].skills && e == entry(s, groups[k].category) {
        var k, s :| 0 <= k < n && s in groups[k].skills && e == entry(s, groups[k].category);
        if k == n - 1 {
          var j :| 0 <= j < |last.skills| && last.skills[j] == s;
          assert block[j] == e;
        } else {
          assert groups[k] == init[k];
        }
      }
    }
  }

  /** With distinct categories, lists without repeats and entries that
      determine their skill and category, the flat list has no repeats. */
  lemma {:induction false} FlattenNoDup<E>(groups: Groups, entry: (string, string) -> E)
    requires NoDup(Categories(groups))
    requires forall g :: g in groups ==> NoDup(g.skills)
    requires forall s, c, s', c' :: entry(s, c) == entry(s', c') ==> s == s' && c == c'
    ensures forall i, j :: 0 <= i < j < |Flatten(groups, entry)| ==> Flatten(groups, entry)[i] != Flatten(groups, entry)[j]
  {
    if groups != [] {
      var n := |groups|;
      var init := groups[..n - 1];
      var last := groups[n - 1];
      assert Categories(init) == Categories(groups)[..n - 1];
      FlattenNoDup(init, entry);
      var front := Flatten(init, entry);
      var block := EntriesOf(last, entry);
      var flat := Flatten(groups, entry);
      assert flat == front + block;
      assert NoDup(last.skills);
      forall i, j | 0 <= i < j < |flat| ensures flat[i] != flat[j] {
        if j < |front| {
          assert flat[i] == front[i] && flat[j] == front[j];
        } else if i >= |front| {
          assert flat[i] == block[i - |front|] == entry(last.skills[i - |front|], last.category);
          assert flat[j] == block[j - |front|] == entry(last.skills[j - |front|], last.category);
        } else {
          FlattenMembers(init, entry, flat[i]);
          assert flat[i] in front;
          var k, s :| 0 <= k < |init| && s in init[k].skills && flat[i] == entry(s, init[k].category);
          assert Categories(groups)[k] != Categories(groups)[n - 1];
          assert flat[j] == block[j - |front|] == entry(last.skills[j - |front|], last.category);
        }
      }
    }
  }

  /** A flat list of empty lists is empty. */
  lemma {:induction false} FlattenEmptyLists<E>(groups: Groups, entry: (string, string) -> E)
    requires forall g :: g in groups ==> g.skills == []
    ensures Flatten(groups, entry) == []
  {
    if groups != [] {
      FlattenEmptyLists(groups[..|groups| - 1], entry);
    }
  }

  /** The matched lists hold as many skills as the matched points count. */
  lemma {:induction false} MatchedListsCount(taxonomy: Groups, resume: Groups, jd: Groups, groups: Groups)
    requires Categories(groups) == ScoredCategories(taxonomy, jd)
    requires forall g :: g in groups ==> MatchedGroupOk(g, resume, jd)
    ensures SkillCount(groups) * 10 == EarnedPoints(taxonomy, resume, jd)
  {
    if taxonomy != [] {
      var init := taxonomy[..|taxonomy| - 1];
      var c := taxonomy[|taxonomy| - 1].category;
      if SkillSet(jd, c) != {} {
        assert ScoredCategories(taxonomy, jd) == ScoredCategories(init, jd) + [c];
        var m := |groups|;
        var front, last := groups[..m - 1], groups[m - 1];
        assert Categories(groups)[m - 1] == c;
        CategoriesPrefix(groups, m - 1);
        assert forall g :: g in front ==> g in groups;
        MatchedListsCount(init, resume, jd, front);
        assert SkillCount(groups) == SkillCount(front) + |last.skills|;
        assert last in groups && last.category == c;
        NoDupCard(last.skills);
      } else {
        assert MatchedSkills(resume, jd, c) == {};
        MatchedListsCount(init, resume, jd, groups);
      }
    } else {
      assert |groups| == 0;
    }
  }

  /** The missing lists hold as many skills as the points not earned count. */
  lemma {:induction false} MissingListsCount(taxonomy: Groups, resume: Groups, jd: Groups, groups: Groups)
    requires Categories(groups) == ScoredCategories(taxonomy, jd)
    requires forall g :: g in groups ==> MissingGroupOk(g, resume, jd)
    ensures SkillCount(groups) * 10 + EarnedPoints(taxonomy, resume, jd) == TotalPoints(taxonomy, jd)
  {
    if taxonomy != [] {
      var init := taxonomy[..|taxonomy| - 1];
      var c := taxonomy[|taxonomy| - 1].category;
      SplitJobSkills(resume, jd, c);
      if SkillSet(jd, c) != {} {
        assert ScoredCategories(taxonomy, jd) == ScoredCategories(init, jd) + [c];
        var m := |groups|;
        var front, last := groups[..m - 1], groups[m - 1];
        assert Categories(groups)[m - 1] == c;
        CategoriesPrefix(groups, m - 1);
        assert forall g :: g in front ==> g in groups;
        MissingListsCount(init, resume, jd, front);
        assert SkillCount(groups) == SkillCount(front) + |last.skills|;
        assert last in groups && last.category == c;
        NoDupCard(last.skills);
      } else {
        MissingListsCount(init, resume, jd, groups);
      }
    } else {
      assert |groups| == 0;
    }
  }

  // ---------------------------------------------------------------------------
  // The result of calculate_skill_match

  /** Every category score and the overall score lie in [0, 100]. */
  lemma ScoresInRange(res: MatchResult, taxonomy: Groups, resume: Groups, jd: Groups)
    requires IsMatchOf(res, taxonomy, resume, jd)
    ensures forall s :: s in res.categoryScores ==> 0.0 <= s.score <= 100.0
    ensures 0.0 <= res.overallScore <= 100.0
  {
    EarnedAtMostTotal(taxonomy, resume, jd);
    PercentInRange(EarnedPoints(taxonomy, resume, jd), TotalPoints(taxonomy, jd));
    forall s | s in res.categoryScores ensures 0.0 <= s.score <= 100.0 {
      assert ScoreOk(s, resume, jd);
      SplitJobSkills(resume, jd, s.category);
      PercentInRange(|MatchedSkills(resume, jd, s.category)| * 10, |SkillSet(jd, s.category)| * 10);
    }
  }

  /** The flat lists have one entry per matched and per missing skill, and the
      overall score is the share of the job description's skills the resume
      has: `100 * |matched_flat| / (|matched_flat| + |missing_flat|)`. */
  lemma FlatCounts(res: MatchResult, taxonomy: Groups, resume: Groups, jd: Groups)
    requires IsMatchOf(res, taxonomy, resume, jd)
    ensures |res.matchedFlat| * 10 == EarnedPoints(taxonomy, resume, jd)
    ensures (|res.matchedFlat| + |res.missingFlat|) * 10 == TotalPoints(taxonomy, jd)
    ensures res.overallScore == Percent(|res.matchedFlat|, |res.matchedFlat| + |res.missingFlat|)
  {
    FlattenLength(res.matched, MatchedEntryOf);
    FlattenLength(res.missing, MissingEntryOf);
    MatchedListsCount(taxonomy, resume, jd, res.matched);
    MissingListsCount(taxonomy, resume, jd, res.missing);
    PercentOfPoints(|res.matchedFlat|, |res.matchedFlat| + |res.missingFlat|);
  }

  /** A job description with no skill in any taxonomy category scores 0 and
      yields no category entries and empty flat lists. */
  lemma NoJobSkillsScoresZero(res: MatchResult, taxonomy: Groups, resume: Groups, jd: Groups)
    requires IsMatchOf(res, taxonomy, resume, jd)
    requires forall i :: 0 <= i < |taxonomy| ==> SkillSet(jd, taxonomy[i].category) == {}
    ensures res.overallScore == 0.0
    ensures res.matched == [] && res.missing == [] && res.categoryScores == []
    ensures res.matchedFlat == [] && res.missingFlat == []
  {
    NothingListedNothingScored(taxonomy, jd);
    assert |res.matched| == |Categories(res.matched)| == 0;
    assert |res.missing| == |Categories(res.missing)| == 0;
    assert |res.categoryScores| == |ScoreCategories(res.categoryScores)| == 0;
  }

  /** The overall score is 100 exactly when the job description lists some
      skill and the resume covers it; then nothing is missing. */
  lemma PerfectScoreIffCovered(res: MatchResult, taxonomy: Groups, resume: Groups, jd: Groups)
    requires IsMatchOf(res, taxonomy, resume, jd)
    ensures res.overallScore == 100.0 <==> ListsSomeSkill(taxonomy, jd) && Covers(taxonomy, resume, jd)
    ensures res.overallScore == 100.0 ==> res.missingFlat == []
  {
    AllEarnedIffCovered(taxonomy, resume, jd);
    PointsIffListsSome(taxonomy, jd);
    EarnedAtMostTotal(taxonomy, resume, jd);
    PercentInRange(EarnedPoints(taxonomy, resume, jd), TotalPoints(taxonomy, jd));
    if Covers(taxonomy, resume, jd) {
      ScoredCategoriesSpec(taxonomy, jd);
      forall g | g in res.missing ensures g.skills == [] {
        var k :| 0 <= k < |res.missing| && res.missing[k] == g;
        assert Categories(res.missing)[k] == g.category;
        var i :| 0 <= i < |taxonomy| && taxonomy[i].category == g.category;
        assert MissingGroupOk(g, resume, jd);
        assert MissingSkills(resume, jd, g.category) == {};
        NoDupCard(g.skills);
      }
      FlattenEmptyLists(res.missing, MissingEntryOf);
    }
  }

  /** The (skill, category) pairs of the matched flat list. */
  function MatchedPairs(flat: seq<MatchedEntry>): set<(string, string)> {
    set e | e in flat :: (e.skill, e.category)
  }

  /** The (skill, category) pairs of the missing flat list. */
  function MissingPairs(flat: seq<MissingEntry>): set<(string, string)> {
    set e | e in flat :: (e.skill, e.category)
  }

  /** Every skill the job description lists under a taxonomy category, paired
      with that category. */
  ghost function JobPairs(taxonomy: Groups, jd: Groups): set<(string, string)> {
    set c, s | c in Categories(taxonomy) && s in SkillSet(jd, c) :: (s, c)
  }

  /** `matched_skills_flat` holds, once each and with confidence 100, exactly
      the skills found in both profiles under a taxonomy category. */
  lemma MatchedFlatExact(res: MatchResult, taxonomy: Groups, resume: Groups, jd: Groups)
    requires IsMatchOf(res, taxonomy, resume, jd)
    ensures forall e :: e in res.matchedFlat <==>
      e.confidence == 100 && e.category in Categories(taxonomy) && e.skill in MatchedSkills(resume, jd, e.category)
    ensures DistinctCategories(taxonomy) ==>
      forall i, j :: 0 <= i < j < |res.matchedFlat| ==> res.matchedFlat[i] != res.matchedFlat[j]
  {
    ScoredCategoriesSpec(taxonomy, jd);
    forall e
      ensures e in res.matchedFlat <==>
        e.confidence == 100 && e.category in Categories(taxonomy) && e.skill in MatchedSkills(resume, jd, e.category)
    {
      FlattenMembers(res.matched, MatchedEntryOf, e);
      if e in res.matchedFlat {
        var k, s :| 0 <= k < |res.matched| && s in res.matched[k].skills && e == MatchedEntryOf(s, res.matched[k].category);
        assert MatchedGroupOk(res.matched[k], resume, jd);
        assert Categories(res.matched)[k] == res.matched[k].category;
        assert s in Elems(res.matched[k].skills);
      }
      if e.confidence == 100 && e.category in Categories(taxonomy) && e.skill in MatchedSkills(resume, jd, e.category) {
        assert e.category in Categories(res.matched);
        var k :| 0 <= k < |res.matched| && Categories(res.matched)[k] == e.category;
        assert MatchedGroupOk(res.matched[k], resume, jd);
        assert e.skill in Elems(res.matched[k].skills);
        assert e == MatchedEntryOf(e.skill, res.matched[k].category);
      }
    }
    if DistinctCategories(taxonomy) {
      FlattenNoDup(res.matched, MatchedEntryOf);
    }
  }

  /** `missing_skills_flat` holds, once each and with the priority of its
      category, exactly the job-description skills the resume lacks under a
      taxonomy category. */
  lemma MissingFlatExact(res: MatchResult, taxonomy: Groups, resume: Groups, jd: Groups)
    requires IsMatchOf(res, taxonomy, resume, jd)
    ensures forall e :: e in res.missingFlat <==>
      e.priority == PriorityOf(e.category) && e.category in Categories(taxonomy) && e.skill in MissingSkills(resume, jd, e.category)
    ensures DistinctCategories(taxonomy) ==>
      forall i, j :: 0 <= i < j < |res.missingFlat| ==> res.missingFlat[i] != res.missingFlat[j]
  {
    ScoredCategoriesSpec(taxonomy, jd);
    forall e
      ensures e in res.missingFlat <==>
        e.priority == PriorityOf(e.category) && e.category in Categories(taxonomy) && e.skill in MissingSkills(resume, jd, e.category)
    {
      FlattenMembers(res.missing, MissingEntryOf, e);
      if e in res.missingFlat {
        var k, s :| 0 <= k < |res.missing| && s in res.missing[k].skills && e == MissingEntryOf(s, res.missing[k].category);
        assert MissingGroupOk(res.missing[k], resume, jd);
        assert Categories(res.missing)[k] == res.missing[k].category;
        assert s in Elems(res.missing[k].skills);
      }
      if e.priority == PriorityOf(e.category) && e.category in Categories(taxonomy) && e.skill in MissingSkills(resume, jd, e.category) {
        assert e.category in Categories(res.missing);
        var k :| 0 <= k < |res.missing| && Categories(res.missing)[k] == e.category;
        assert MissingGroupOk(res.missing[k], resume, jd);
        assert e.skill in Elems(res.missing[k].skills);
        assert e == MissingEntryOf(e.skill, res.missing[k].category);
      }
    }
    if DistinctCategories(taxonomy) {
      FlattenNoDup(res.missing, MissingEntryOf);
    }
  }

  /** Every job-description skill under a taxonomy category lands in exactly
      one of the two flat lists. */
  lemma FlatListsPartitionJobSkills(res: MatchResult, taxonomy: Groups, resume: Groups, jd: Groups)
    requires IsMatchOf(res, taxonomy, resume, jd)
    ensures MatchedPairs(res.matchedFlat) + MissingPairs(res.missingFlat) == JobPairs(taxonomy, jd)
    ensures MatchedPairs(res.matchedFlat) !! MissingPairs(res.missingFlat)
  {
    MatchedFlatExact(res, taxonomy, resume, jd);
    MissingFlatExact(res, taxonomy, resume, jd);
    var mp, xp, jp := MatchedPairs(res.matchedFlat), MissingPairs(res.missingFlat), JobPairs(taxonomy, jd);
    forall p | p in jp ensures p in mp + xp {
      var s, c := p.0, p.1;
      SplitJobSkills(resume, jd, c);
      if s in MatchedSkills(resume, jd, c) {
        assert MatchedEntry(s, c, 100) in res.matchedFlat;
      } else {
        assert MissingEntry(s, c, PriorityOf(c)) in res.missingFlat;
      }
    }
    forall p | p in mp ensures p in jp && p !in xp {
      var e :| e in res.matchedFlat && (e.skill, e.category) == p;
      SplitJobSkills(resume, jd, e.category);
      forall e' | e' in res.missingFlat ensures (e'.skill, e'.category) != p {
        SplitJobSkills(resume, jd, e'.category);
      }
    }
    forall p | p in xp ensures p in jp {
      var e :| e in res.missingFlat && (e.skill, e.category) == p;
    }
  }

  /** From texts to scores: with the profiles the detector builds, a skill is
      matched under a category exactly when the taxonomy lists it there and
      both texts mention it, and missing exactly when only the job
      description mentions it. */
  lemma MatchedIffMentionedInBoth(taxonomy: Groups, resumeText: string, jdText: string, c: string, s: string)
    requires DistinctCategories(taxonomy)
    ensures var resume, jd := DetectSkills(taxonomy, resumeText), DetectSkills(taxonomy, jdText);
      && (s in MatchedSkills(resume, jd, c) <==>
           s in Lookup(taxonomy, c) && Mentions(Lower(resumeText), s) && Mentions(Lower(jdText), s))
      && (s in MissingSkills(resume, jd, c) <==>
           s in Lookup(taxonomy, c) && !Mentions(Lower(resumeText), s) && Mentions(Lower(jdText), s))
  {
    LookupDetected(taxonomy, resumeText, c);
    LookupDetected(taxonomy, jdText, c);
  }
}

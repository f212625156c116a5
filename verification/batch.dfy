/** The recruiter batch step of `batch_analyze` in app.py: every uploaded
    resume is parsed and scored against one job description, summarised, and
    the summaries are ranked by ATS score, best first. */
module Batch {
  import opened Wrappers
  import opened Skills
  import opened Scoring
  import opened MatchProperties
  import opened Contact
  import opened Parsing

  /** One candidate row of the batch response. */
  datatype Summary = Summary(
    name: string, email: string, atsScore: real,
    matchedCount: nat, missingCount: nat, topSkills: seq<string>)

  /** One uploaded resume: the text its reader extracted and what the contact
      patterns match in it. */
  datatype Upload = Upload(text: string, found: PatternMatches)

  /** The batch response: the "No resumes uploaded" error or the ranked rows. */
  datatype BatchOutcome = NoResumes | Candidates(ranked: seq<Summary>)

  function Min(a: nat, b: nat): nat {
    if a < b then a else b
  }

  /** `[s['skill'] for s in matched_flat[:3]]`: at most three skills, those
      of the first entries, in flat-list order. */
  function TopSkills(flat: seq<MatchedEntry>): (r: seq<string>)
    ensures |r| == Min(|flat|, 3) <= 3
    ensures forall k :: 0 <= k < |r| ==> r[k] == flat[k].skill
  {
    seq(Min(|flat|, 3), k requires 0 <= k < Min(|flat|, 3) => flat[k].skill)
  }

  /** The row built for one scored resume: as many top skills as there are
      matched skills, up to three, taken from the front of `matched_flat`. */
  function Summarize(contact: ContactInfo, res: MatchResult): (s: Summary)
    ensures |s.topSkills| == Min(s.matchedCount, 3)
    ensures s.topSkills == TopSkills(res.matchedFlat)
  {
    Summary(contact.name, contact.email, res.overallScore,
            |res.matchedFlat|, |res.missingFlat|, TopSkills(res.matchedFlat))
  }

  /** What a row's counts and score say about the profiles it was built
      from: the counts are the matched and missing job-description skills and
      the score is the share of them matched, in [0, 100]. */
  ghost predicate CountsAgree(s: Summary, taxonomy: Groups, resume: Groups, jd: Groups) {
    && s.matchedCount * 10 == EarnedPoints(taxonomy, resume, jd)
    && (s.matchedCount + s.missingCount) * 10 == TotalPoints(taxonomy, jd)
    && s.atsScore == Percent(s.matchedCount, s.matchedCount + s.missingCount)
    && 0.0 <= s.atsScore <= 100.0
  }

  /** What a row's top skills say: at most three, each found in both
      profiles under some taxonomy category. */
  ghost predicate TopSkillsAgree(s: Summary, taxonomy: Groups, resume: Groups, jd: Groups) {
    && |s.topSkills| == Min(s.matchedCount, 3)
    && forall k :: 0 <= k < |s.topSkills| ==> MatchedSomewhere(s.topSkills[k], taxonomy, resume, jd)
  }

  /** Both profiles list `skill` under some taxonomy category. */
  ghost predicate MatchedSomewhere(skill: string, taxonomy: Groups, resume: Groups, jd: Groups) {
    exists c :: c in Categories(taxonomy) && skill in MatchedSkills(resume, jd, c)
  }

  /** A row is read off some result of `calculate_skill_match` for the
      profiles: its score, its counts, and the skills of the first three
      entries of that result's `matched_flat` as its top skills. (The result
      is not unique: the order within a category comes from a set.) */
  ghost predicate FromMatch(s: Summary, taxonomy: Groups, resume: Groups, jd: Groups) {
    exists res :: IsMatchOf(res, taxonomy, resume, jd) && ReadOff(s, res)
  }

  /** The score, counts and top skills of a row are those of `res`. */
  ghost predicate ReadOff(s: Summary, res: MatchResult) {
    && s.atsScore == res.overallScore
    && s.matchedCount == |res.matchedFlat|
    && s.missingCount == |res.missingFlat|
    && s.topSkills == TopSkills(res.matchedFlat)
  }

  /** Everything a row says about the profiles it was built from. */
  ghost predicate Summarizes(s: Summary, taxonomy: Groups, resume: Groups, jd: Groups) {
    && FromMatch(s, taxonomy, resume, jd)
    && CountsAgree(s, taxonomy, resume, jd)
    && TopSkillsAgree(s, taxonomy, resume, jd)
  }

  /** The counts and score of a row built from a match result. */
  lemma SummaryCounts(contact: ContactInfo, res: MatchResult, taxonomy: Groups, resume: Groups, jd: Groups)
    requires IsMatchOf(res, taxonomy, resume, jd)
    ensures CountsAgree(Summarize(contact, res), taxonomy, resume, jd)
  {
    FlatCounts(res, taxonomy, resume, jd);
    ScoresInRange(res, taxonomy, resume, jd);
  }

  /** The top skills of a row built from a match result. */
  lemma SummaryTopSkills(contact: ContactInfo, res: MatchResult, taxonomy: Groups, resume: Groups, jd: Groups)
    requires IsMatchOf(res, taxonomy, resume, jd)
    ensures TopSkillsAgree(Summarize(contact, res), taxonomy, resume, jd)
  {
    var s := Summarize(contact, res);
    assert |s.topSkills| == Min(s.matchedCount, 3);
    MatchedFlatExact(res, taxonomy, resume, jd);
    forall k | 0 <= k < |s.topSkills| ensures MatchedSomewhere(s.topSkills[k], taxonomy, resume, jd) {
      var e := res.matchedFlat[k];
      assert e in res.matchedFlat;
      assert s.topSkills[k] == e.skill;
      assert e.category in Categories(taxonomy) && e.skill in MatchedSkills(resume, jd, e.category);
    }
  }

  /** A row built from a match result says what `Summarizes` says. */
  lemma SummaryFaithful(contact: ContactInfo, res: MatchResult, taxonomy: Groups, resume: Groups, jd: Groups)
    requires IsMatchOf(res, taxonomy, resume, jd)
    ensures Summarizes(Summarize(contact, res), taxonomy, resume, jd)
  {
    assert ReadOff(Summarize(contact, res), res);
    SummaryCounts(contact, res, taxonomy, resume, jd);
    SummaryTopSkills(contact, res, taxonomy, resume, jd);
  }

  /** The row for one upload: its name and email come from the resume text,
      and it summarises the resume's profile against the job description's. */
  ghost predicate IsRowFor(s: Summary, taxonomy: Groups, u: Upload, jdText: string) {
    && s.name == CandidateName(u.text)
    && s.email == FirstOrEmpty(u.found.emails)
    && Summarizes(s, taxonomy, DetectSkills(taxonomy, u.text), DetectSkills(taxonomy, jdText))
  }

  /** Rows in non-increasing order of ATS score. */
  ghost predicate SortedByScore(rows: seq<Summary>) {
    forall i, j :: 0 <= i < j < |rows| ==> rows[i].atsScore >= rows[j].atsScore
  }

  /** Exchanges two rows. */
  method Swap(a: array<Summary>, i: int, j: int)
    requires 0 <= i < a.Length && 0 <= j < a.Length
    modifies a
    ensures a[..] == old(a[..])[i := old(a[j])][j := old(a[i])]
    ensures multiset(a[..]) == multiset(old(a[..]))
  {
    a[i], a[j] := a[j], a[i];
  }

  /** Insertion in progress: the rows up to `i` are in order except that the
      row being inserted, now at `j`, may outrank the rows before it. */
  ghost predicate Inserting(rows: seq<Summary>, i: nat, j: nat) {
    && j <= i < |rows|
    && (forall k, l :: 0 <= k < l <= i && k != j && l != j ==> rows[k].atsScore >= rows[l].atsScore)
    && (forall l :: j < l <= i ==> rows[j].atsScore >= rows[l].atsScore)
  }

  /** Inserting row `i` starts from an ordered prefix. */
  lemma InsertingStart(rows: seq<Summary>, i: nat)
    requires i < |rows| && SortedByScore(rows[..i])
    ensures Inserting(rows, i, i)
  {
    assert forall k :: 0 <= k < i ==> rows[..i][k] == rows[k];
  }

  /** Moving the inserted row one place up past a row it outranks keeps the
      insertion going. */
  lemma InsertingSwap(rows: seq<Summary>, i: nat, j: nat)
    requires Inserting(rows, i, j) && 0 < j && rows[j - 1].atsScore < rows[j].atsScore
    ensures Inserting(rows[j - 1 := rows[j]][j := rows[j - 1]], i, j - 1)
  {
  }

  /** The insertion is done once the row above does not rank lower. */
  lemma InsertingDone(rows: seq<Summary>, i: nat, j: nat)
    requires Inserting(rows, i, j) && (j == 0 || rows[j - 1].atsScore >= rows[j].atsScore)
    ensures SortedByScore(rows[..i + 1])
  {
    forall k, l | 0 <= k < l < i + 1 ensures rows[k].atsScore >= rows[l].atsScore {
      if l == j && k < j - 1 {
        assert rows[k].atsScore >= rows[j - 1].atsScore;
      }
    }
  }

  /** `results.sort(key=lambda x: x['ats_score'], reverse=True)`, as an
      insertion sort in place. */
  method SortByScore(a: array<Summary>)
    modifies a
    ensures SortedByScore(a[..])
    ensures multiset(a[..]) == multiset(old(a[..]))
  {
    var i := 0;
    while i < a.Length
      invariant 0 <= i <= a.Length
      invariant SortedByScore(a[..i])
      invariant multiset(a[..]) == multiset(old(a[..]))
    {
      InsertingStart(a[..], i);
      var j := i;
      while j > 0 && a[j - 1].atsScore < a[j].atsScore
        invariant Inserting(a[..], i, j)
        invariant multiset(a[..]) == multiset(old(a[..]))
      {
        InsertingSwap(a[..], i, j);
        Swap(a, j - 1, j);
        j := j - 1;
      }
      InsertingDone(a[..], i, j);
      i := i + 1;
    }
    assert a[..a.Length] == a[..];
  }

  /** The loop of `batch_analyze`: parse, score and summarise each upload,
      in upload order. */
  method SummarizeAll(taxonomy: Groups, jd: JobDescription, uploads: seq<Upload>) returns (results: seq<Summary>)
    requires jd.skills == DetectSkills(taxonomy, jd.text)
    ensures |results| == |uploads|
    ensures forall i :: 0 <= i < |uploads| ==> IsRowFor(results[i], taxonomy, uploads[i], jd.text)
  {
    results := [];
    for i := 0 to |uploads|
      invariant |results| == i
      invariant forall k :: 0 <= k < i ==> IsRowFor(results[k], taxonomy, uploads[k], jd.text)
    {
      var row := SummarizeOne(taxonomy, jd, uploads[i]);
      RowsExtend(results, row, taxonomy, uploads, jd.text);
      results := results + [row];
    }
  }

  /** Appending the row for the next upload keeps every row the row for its
      upload. */
  lemma RowsExtend(rows: seq<Summary>, row: Summary, taxonomy: Groups, uploads: seq<Upload>, jdText: string)
    requires |rows| < |uploads|
    requires forall k :: 0 <= k < |rows| ==> IsRowFor(rows[k], taxonomy, uploads[k], jdText)
    requires IsRowFor(row, taxonomy, uploads[|rows|], jdText)
    ensures forall k :: 0 <= k < |rows| + 1 ==> IsRowFor((rows + [row])[k], taxonomy, uploads[k], jdText)
  {
    forall k | 0 <= k < |rows| + 1 ensures IsRowFor((rows + [row])[k], taxonomy, uploads[k], jdText) {
      if k < |rows| {
        assert (rows + [row])[k] == rows[k];
      }
    }
  }

  /** One iteration: parse the resume, score it against the job description
      and build its row. */
  method SummarizeOne(taxonomy: Groups, jd: JobDescription, u: Upload) returns (row: Summary)
    requires jd.skills == DetectSkills(taxonomy, jd.text)
    ensures IsRowFor(row, taxonomy, u, jd.text)
  {
    var resume := ParseResume(taxonomy, u.text, u.found);
    var res := CalculateSkillMatch(taxonomy, resume.skills, jd.skills);
    row := Summarize(resume.contact, res);
    SummaryFaithful(resume.contact, res, taxonomy, resume.skills, jd.skills);
  }

  /** `batch_analyze`: no uploads is an error; otherwise one row per upload,
      ranked best first. `rows` are the rows in upload order. */
  method BatchAnalyze(taxonomy: Groups, jdText: string, uploads: seq<Upload>)
    returns (outcome: BatchOutcome, ghost rows: seq<Summary>)
    ensures outcome.NoResumes? <==> uploads == []
    ensures outcome.Candidates? ==>
      && |rows| == |uploads|
      && (forall i :: 0 <= i < |uploads| ==> IsRowFor(rows[i], taxonomy, uploads[i], jdText))
      && multiset(outcome.ranked) == multiset(rows)
      && SortedByScore(outcome.ranked)
  {
    if uploads == [] {
      return NoResumes, [];
    }
    var jd := ParseJobDescription(taxonomy, Some(jdText));
    var results := SummarizeAll(taxonomy, jd, uploads);
    var ranked := RankRows(results);
    outcome, rows := Candidates(ranked), results;
  }

  /** Copies the rows into a list and sorts it by ATS score, best first. */
  method RankRows(rows: seq<Summary>) returns (ranked: seq<Summary>)
    ensures multiset(ranked) == multiset(rows)
    ensures SortedByScore(ranked)
  {
    var a := new Summary[|rows|](k requires 0 <= k < |rows| => rows[k]);
    assert a[..] == rows;
    SortByScore(a);
    ranked := a[..];
  }

  /** Every ranked row has at most three top skills and a score in [0, 100]. */
  lemma RankedRowsBounded(outcome: BatchOutcome, rows: seq<Summary>, taxonomy: Groups, uploads: seq<Upload>, jdText: string)
    requires outcome.Candidates? && |rows| == |uploads|
    requires forall i :: 0 <= i < |uploads| ==> IsRowFor(rows[i], taxonomy, uploads[i], jdText)
    requires multiset(outcome.ranked) == multiset(rows)
    ensures forall s :: s in outcome.ranked ==> |s.topSkills| <= 3 && 0.0 <= s.atsScore <= 100.0
  {
    forall s | s in outcome.ranked ensures |s.topSkills| <= 3 && 0.0 <= s.atsScore <= 100.0 {
      assert s in multiset(rows);
      var i :| 0 <= i < |rows| && rows[i] == s;
      assert IsRowFor(rows[i], taxonomy, uploads[i], jdText);
    }
  }
}

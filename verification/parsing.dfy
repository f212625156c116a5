/** `parse_resume` and `parse_job_description` in app.py, from the text the
    file readers extracted onwards. */
module Parsing {
  import opened Wrappers
  import opened Text
  import opened Skills
  import opened Contact

  /** The dict `parse_resume` returns. */
  datatype ResumeData = ResumeData(contact: ContactInfo, rawText: string, skills: Groups, textLength: nat)

  /** `parse_resume` on the extracted `text`; `found` is what the contact
      patterns match in it. */
  method ParseResume(taxonomy: Groups, text: string, found: PatternMatches) returns (r: ResumeData)
    ensures r.rawText == text && r.textLength == |text|
    ensures r.contact == ExtractContactInfo(text, found)
    ensures r.skills == DetectSkills(taxonomy, text)
  {
    var contact := ExtractContactInfo(text, found);
    var skills := ExtractSkills(text, taxonomy);
    r := ResumeData(contact, text, skills, |text|);
  }

  /** The dict `parse_job_description` returns. */
  datatype JobDescription = JobDescription(text: string, skills: Groups, title: string)

  /** The text `parse_job_description` works on when given no file:
      `text or ""`. */
  function JobText(text: Option<string>): (r: string)
    ensures r == "" <==> text.None? || text == Some("")
    ensures text.Some? ==> r == text.value
  {
    if text.Some? then text.value else ""
  }

  /** `parse_job_description(text=...)`: the skills the text mentions and the
      first-line job title. */
  method ParseJobDescription(taxonomy: Groups, text: Option<string>) returns (jd: JobDescription)
    ensures jd.text == JobText(text)
    ensures jd.skills == DetectSkills(taxonomy, jd.text)
    ensures jd.title == JobTitle(jd.text)
  {
    var jdText := JobText(text);
    var jdSkills := ExtractSkills(jdText, taxonomy);
    var jobTitle := JobTitle(jdText);
    jd := JobDescription(jdText, jdSkills, jobTitle);
  }

  /** A missing or empty job description mentions no skill with a non-empty
      name and gets the title "Position". */
  lemma NoJobTextNoSkills(taxonomy: Groups, text: Option<string>)
    requires text.None? || text == Some("")
    requires forall i, s :: 0 <= i < |taxonomy| && s in taxonomy[i].skills ==> s != ""
    ensures JobText(text) == ""
    ensures forall i :: 0 <= i < |taxonomy| ==> DetectSkills(taxonomy, JobText(text))[i].skills == []
    ensures JobTitle(JobText(text)) == "Position"
  {
    var found := DetectSkills(taxonomy, "");
    forall i | 0 <= i < |taxonomy| ensures found[i].skills == [] {
      forall s | s in taxonomy[i].skills ensures !Mentions(Lower(""), s) {
        assert Lower(s) != [] && Lower("") == [];
      }
      NothingMentioned(taxonomy[i].skills, Lower(""));
    }
  }

  /** When the text mentions none of the skills, none is present. */
  lemma {:induction false} NothingMentioned(skills: seq<string>, lowerText: string)
    requires forall s :: s in skills ==> !Mentions(lowerText, s)
    ensures Present(skills, lowerText) == []
  {
    if skills != [] {
      NothingMentioned(skills[..|skills| - 1], lowerText);
    }
  }
}

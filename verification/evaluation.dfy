/** The deterministic part of `analyze_with_ai` in app.py: how the outcome of
    the language-model call becomes an evaluation, the role-fit star score the
    recommendation label maps to, and the two fixed fallback records. The call
    itself, the prompt and the JSON parsing are not modelled: their outcome is
    an input. */
module Evaluation {
  import opened Wrappers

  /** The value under the "recommendation" key of a parsed JSON object: a
      string, or any other JSON value (null, a number, a list, an object). */
  datatype Label = Str(value: string) | NonString

  /** The narrative fields of an evaluation. `recommendation` is `None` when
      the parsed JSON object has no "recommendation" key. */
  datatype Narrative = Narrative(
    overallFit: string,
    strengths: seq<string>,
    weaknesses: seq<string>,
    redFlags: string,
    recommendation: Option<Label>,
    confidence: string,
    learningPlan30: string,
    learningPlan60: string,
    learningPlan90: string,
    resumeTips: string)

  /** The dict `analyze_with_ai` returns: the narrative and `role_fit_score`,
      on a 0-5 star scale. */
  datatype Evaluation = Evaluation(narrative: Narrative, roleFitScore: real)

  /** What came back from the model: the call raised, its text held no `{...}`
      span, or the span parsed as a JSON object with these fields. A span that
      does not parse raises in `json.loads` and is `ServiceFailed` too. */
  datatype AiOutcome = ServiceFailed | NoJsonObject | JsonObject(fields: Narrative)

  /** The role-fit mapping: "Strong Fit" is 4.5 stars, "Moderate Fit" 3.5,
      and every other label, whatever it says, 2.0. */
  function RoleFitScore(verdict: string): (stars: real)
    ensures stars == 4.5 <==> verdict == "Strong Fit"
    ensures stars == 3.5 <==> verdict == "Moderate Fit"
    ensures stars == 2.0 <==> verdict != "Strong Fit" && verdict != "Moderate Fit"
    ensures 0.0 <= stars <= 5.0
  {
    if verdict == "Strong Fit" then 4.5
    else if verdict == "Moderate Fit" then 3.5
    else 2.0
  }

  /** The mapping applied to whatever the key holds: a value that is not a
      string equals neither label, so it gets 2.0 like any other label. */
  function LabelScore(given: Label): (stars: real)
    ensures stars == 4.5 <==> given == Str("Strong Fit")
    ensures stars == 3.5 <==> given == Str("Moderate Fit")
    ensures stars == 2.0 <==> given != Str("Strong Fit") && given != Str("Moderate Fit")
  {
    match given
    case Str(verdict) => RoleFitScore(verdict)
    case NonString => 2.0
  }

  // The texts of the record used when the model's text holds no JSON object.
  const NoJsonOverallFit := "Unable to generate detailed analysis. Please review ATS scores."
  const NoJsonStrengths := ["Strong technical foundation", "Relevant experience", "Good educational background"]
  const NoJsonWeaknesses := ["Some skill gaps identified", "Additional certifications recommended"]
  const NoJsonPlan30 := "Focus on missing critical skills"
  const NoJsonPlan60 := "Build portfolio projects"
  const NoJsonPlan90 := "Gain advanced certifications"
  const NoJsonTips := "Optimize keywords for ATS"

  // The texts of the record returned when the analysis raises.
  const ErrorOverallFit := "Analysis completed. Review detailed scores below."
  const ErrorStrengths := ["Technical skills present", "Relevant experience", "Educational background"]
  const ErrorWeaknesses := ["Some gaps in required skills", "Additional training recommended"]
  const ErrorPlan30 := "Focus on top priority skills from missing list"
  const ErrorPlan60 := "Complete relevant certifications"
  const ErrorPlan90 := "Build real-world project portfolio"
  const ErrorTips := "Add more quantifiable achievements and keywords"

  /** The record used when the model's text holds no JSON object. */
  function NoJsonFallback(): (n: Narrative)
    ensures n.recommendation == Some(Str("Moderate Fit")) && n.redFlags == ""
  {
    Narrative(NoJsonOverallFit, NoJsonStrengths, NoJsonWeaknesses, "", Some(Str("Moderate Fit")), "Medium",
              NoJsonPlan30, NoJsonPlan60, NoJsonPlan90, NoJsonTips)
  }

  /** The record returned when anything in the analysis raises. It is
      labelled "Moderate Fit" but carries 3.0 stars, not the 3.5 the mapping
      gives that label. */
  function ExceptionFallback(): (e: Evaluation)
    ensures e.narrative.recommendation == Some(Str("Moderate Fit")) && e.narrative.redFlags == ""
    ensures e.roleFitScore == 3.0 && e.roleFitScore < RoleFitScore("Moderate Fit")
  {
    Evaluation(
      Narrative(ErrorOverallFit, ErrorStrengths, ErrorWeaknesses, "", Some(Str("Moderate Fit")), "Medium",
                ErrorPlan30, ErrorPlan60, ErrorPlan90, ErrorTips),
      3.0)
  }

  /** `analyze_with_ai` after the model call: a parsed object keeps its
      fields and gets the star score its label maps to, and so does the
      no-JSON record; a failed call, or an object without a "recommendation"
      key (a `KeyError`), gets the exception record, and only those get 3.0
      stars. */
  function AnalyzeWithAi(outcome: AiOutcome): (e: Evaluation)
    ensures outcome.ServiceFailed? ==> e == ExceptionFallback()
    ensures outcome.NoJsonObject? ==> e.narrative == NoJsonFallback() && e.roleFitScore == 3.5
    ensures outcome.JsonObject? && outcome.fields.recommendation.None? ==> e == ExceptionFallback()
    ensures outcome.JsonObject? && outcome.fields.recommendation.Some? ==>
      e.narrative == outcome.fields && e.roleFitScore == LabelScore(outcome.fields.recommendation.value)
    ensures e.roleFitScore == 3.0 <==>
      outcome.ServiceFailed? || (outcome.JsonObject? && outcome.fields.recommendation.None?)
    ensures 0.0 <= e.roleFitScore <= 5.0
  {
    match outcome
    case ServiceFailed => ExceptionFallback()
    case NoJsonObject => WithRoleFit(NoJsonFallback())
    case JsonObject(fields) => WithRoleFit(fields)
  }

  /** Adds `role_fit_score` to an analysis dict: the dict is kept and scored
      by its label; one without a "recommendation" key raises, which ends in
      the exception record, the only way to get 3.0 stars. */
  function WithRoleFit(n: Narrative): (e: Evaluation)
    ensures n.recommendation.Some? ==> e.narrative == n
    ensures e.roleFitScore == 3.0 <==> n.recommendation.None?
    ensures 0.0 <= e.roleFitScore <= 5.0
  {
    match n.recommendation
    case None => ExceptionFallback()
    case Some(given) => Evaluation(n, LabelScore(given))
  }
}

# ResumeIQ Pro skill-matching engine in Dafny

This project models the deterministic core of ResumeIQ Pro's resume screener
(`resumeiq-pro/app.py`) and proves properties of it. The core has five parts:

- **Skill detection** (`extract_skills_from_text`). For every category of an
  ordered skill taxonomy, it lists the skills whose lower-cased name occurs
  anywhere in the lower-cased text. There is no word-boundary check, so "Go"
  is found inside "Google".
- **The ATS scorer** (`calculate_skill_match`). For every taxonomy category
  under which the job description lists a skill, it computes the skills both
  profiles share (matched) and the job skills the resume lacks (missing). It
  counts ten points per job skill and ten per matched skill, and reports
  per-category and overall percentages. It also builds the flat
  `matched_flat` list (confidence 100) and `missing_flat` list (priority
  High or Medium).
- **The role-fit mapping** inside `analyze_with_ai`, with its two fixed
  fallback records.
- **The first-non-blank-line heuristics** for the candidate name (default
  "Candidate") and the job title (default "Position").
- **The batch step** of `batch_analyze`. It summarises every resume against
  one job description and ranks the summaries by ATS score, best first.

Modules:

- `Text`: `str.lower` on ASCII, `str.strip`, `str.split` and Python's
  substring test.
- `Skills`: ordered dicts as sequences of `(category, skills)` groups, and
  the skill detector.
- `Scoring`: the scorer, as loops over the taxonomy and over the
  per-category lists.
- `MatchProperties`: what the scorer guarantees.
- `Contact`: contact extraction and the first-line heuristic.
- `Parsing`: `parse_resume` and `parse_job_description` once the text has
  been extracted.
- `Evaluation`: the role-fit mapping and the fallbacks.
- `Batch`: the summary rows and the in-place sort.

Python dicts keep insertion order, so each one is a `seq` of groups.
`dict.get(c, [])` is `Skills.Lookup`. Percentages are exact Dafny `real`
values. `list(set(...))` is a method that picks the elements in an order
the model does not fix. Nothing is promised about the order of skills
within one category of `matched`, `missing` or the flat lists. Category
order does follow the taxonomy.

The flat lists are therefore specified by their contents and their category
order. They are built from `list(set(...))` (`resumeiq-pro/app.py:196-197`),
so within a category they do not follow taxonomy skill order, and the model
does not claim that they do.

## Model

| member | source | states |
|---|---|---|
| Text.Strip | resumeiq-pro/app.py:89 | `line.strip()` is empty exactly when the line is all whitespace; otherwise it neither starts nor ends with whitespace; either way it is a window of the line with only whitespace before and after it |
| Text.TrimStart | resumeiq-pro/app.py:89 | the leading whitespace dropped is all whitespace, and the rest does not start with whitespace |
| Text.TrimEnd | resumeiq-pro/app.py:89 | the trailing whitespace dropped is all whitespace, and the rest does not end with whitespace |
| Text.Split | resumeiq-pro/app.py:89 | `text.split('\n')` has at least one piece, and no piece holds the separator |
| Text.JoinSplit | resumeiq-pro/app.py:89 | joining the pieces of `text.split('\n')` with the separator gives back the text |
| Text.SplitKeepsChars | resumeiq-pro/app.py:89 | a character other than the separator is in the text exactly when it is in one of the pieces |
| Text.SplitPieceOccurs | resumeiq-pro/app.py:89 | every piece of the split is a window of the text |
| Text.Lower | resumeiq-pro/app.py:96-103 | `lower()` keeps the length, turns each ASCII capital into its small letter, keeps every other character, and leaves no ASCII capital |
| Text.LowerIdempotent | resumeiq-pro/app.py:96-103 | lower-casing an already lower-cased text changes nothing |
| Text.IsSubstring | resumeiq-pro/app.py:104 | `needle in hay` holds when the needle is a prefix of the text, and only when the needle is no longer than the text |
| Text.IsSubstringIffOccurs | resumeiq-pro/app.py:104 | Python's `skill_lower in text_lower` holds exactly when the needle occurs at some position of the text |
| Skills.Lookup | resumeiq-pro/app.py:179-180 | `d.get(category, [])` is `[]` for a missing key and the key's list when the keys are distinct |
| Skills.NoDupCard | resumeiq-pro/app.py:179-180 | a list without repeats has as many elements as `set(list)` |
| Skills.Present | resumeiq-pro/app.py:101-105 | a skill is kept exactly when it is listed and its lower-cased name occurs in the lower-cased text; never more skills than listed |
| Skills.PresentAppend | resumeiq-pro/app.py:101-105 | the appending loop keeps the listed order and every repeat: a list made of two parts yields the skills of the first part followed by those of the second |
| Skills.PresentOne | resumeiq-pro/app.py:104-105 | a one-skill list keeps its skill exactly when the text mentions it; with `PresentAppend` this fixes the result on every list |
| Skills.DetectSkills | resumeiq-pro/app.py:94-107 | every taxonomy category is a key, in taxonomy order (an empty list included); a skill is under a category exactly when the taxonomy lists it there and the text mentions it |
| Skills.DetectKeepsListedOrder | resumeiq-pro/app.py:99-105 | each category's detected skills keep the taxonomy's listed order: a list made of two parts yields the detected skills of the first part followed by those of the second |
| Skills.ExtractSkills | resumeiq-pro/app.py:94-107 | the nested loops build exactly the dict `DetectSkills` describes, so repeated runs on the same inputs agree |
| Skills.LookupDetected | resumeiq-pro/app.py:94-107 | looking a category up in the detector's output gives the listed skills of that category that the text mentions |
| Scoring.ScoringStep | resumeiq-pro/app.py:178-194 | one more loop step adds a category to the scored list exactly when the job lists a skill under it, `10·\|J\|` to the total and `10·\|R∩J\|` to the earned points |
| Scoring.PriorityOf | resumeiq-pro/app.py:216 | priority is High exactly for "Technical Skills" and "Tools & Platforms", Medium otherwise |
| Scoring.Percent | resumeiq-pro/app.py:200-204 | the percentage times the total points is 100 times the earned points, and it is 0 when there are no points |
| Scoring.ListingStep | resumeiq-pro/app.py:196-197 | moving one element of the set to the end of the list keeps every element listed once |
| Scoring.ListOfSet | resumeiq-pro/app.py:196-197 | `list(s)` holds every element of the set once and nothing else |
| Scoring.ScoreCategory | resumeiq-pro/app.py:179-201 | for one category: the matched list is `R∩J` and the missing list `J−R`, each without repeats; the score is the percentage of the category's points earned; the points added are `10·\|J\|` and `10·\|R∩J\|` |
| Scoring.LoopStateSkip | resumeiq-pro/app.py:182-183 | skipping a category the job lists nothing under keeps every loop fact |
| Scoring.LoopStateAdd | resumeiq-pro/app.py:186-201 | recording a scored category extends every loop fact by that category |
| Scoring.ScoreAllCategories | resumeiq-pro/app.py:175-201 | after the category loop, `matched`, `missing` and `category_scores` have exactly the scored categories in taxonomy order; each list is its category's `R∩J` or `J−R`; each score is right; the point totals are the sums over the scored categories |
| Scoring.CalculateSkillMatch | resumeiq-pro/app.py:164-219 | the whole result as `IsMatchOf` describes it: the per-category lists and scores, the overall score as earned over total points (0 when there are none), and the flat lists read off the per-category lists in category order |
| Scoring.FlattenMatchedLists | resumeiq-pro/app.py:207-212 | the loop builds one `{skill, category, 100}` entry per skill of each matched list, list by list |
| Scoring.FlattenMissingLists | resumeiq-pro/app.py:208-217 | the loop builds one `{skill, category, priority}` entry per skill of each missing list, list by list |
| MatchProperties.PercentInRange | resumeiq-pro/app.py:200 | a percentage of earned over total points lies in [0, 100] and is 100 exactly when every point is earned |
| MatchProperties.PercentOfPoints | resumeiq-pro/app.py:190-191 | counting ten points per skill gives the same percentage as counting skills |
| MatchProperties.SplitJobSkills | resumeiq-pro/app.py:186-187 | matched and missing are disjoint, their union is the job's skills of the category, their sizes add up, and matched is all of them exactly when the resume lists every one |
| MatchProperties.EarnedAtMostTotal | resumeiq-pro/app.py:193-194 | the earned points never exceed the total points |
| MatchProperties.ScoredCategoriesSpec | resumeiq-pro/app.py:178-183 | a category is scored exactly when it is a taxonomy key under which the job lists a skill; scored categories are distinct; none is scored exactly when there are no points |
| MatchProperties.CoversStep | resumeiq-pro/app.py:178 | covering a taxonomy is covering all but its last category, and that one |
| MatchProperties.AllEarnedIffCovered | resumeiq-pro/app.py:186-194 | every point is earned exactly when, in every category, the resume lists every skill the job lists |
| MatchProperties.ListsSomeSkillStep | resumeiq-pro/app.py:178 | listing a job skill under some category is listing one under all but the last category, or under the last |
| MatchProperties.PointsIffListsSome | resumeiq-pro/app.py:182-193 | there are points exactly when the job lists a skill under some taxonomy category |
| MatchProperties.NothingListedNothingScored | resumeiq-pro/app.py:182-183 | a job that lists nothing under any category has no scored category and no points |
| MatchProperties.FlattenLength | resumeiq-pro/app.py:210-217 | a flat list has one entry per skill of the per-category lists |
| MatchProperties.FlattenMembers | resumeiq-pro/app.py:210-217 | an entry is in a flat list exactly when it is built from a skill of one list and that list's category |
| MatchProperties.FlattenNoDup | resumeiq-pro/app.py:210-217 | with distinct categories and lists without repeats, a flat list has no repeated entry |
| MatchProperties.FlattenEmptyLists | resumeiq-pro/app.py:210-217 | empty per-category lists give an empty flat list |
| MatchProperties.MatchedListsCount | resumeiq-pro/app.py:191-196 | the matched lists together hold one skill per ten earned points |
| MatchProperties.MissingListsCount | resumeiq-pro/app.py:190-197 | the missing lists together hold one skill per ten points not earned |
| MatchProperties.ScoresInRange | resumeiq-pro/app.py:200-204 | every category score and the overall score lie in [0, 100] |
| MatchProperties.FlatCounts | resumeiq-pro/app.py:190-217 | `\|matched_flat\|` counts the earned points and `\|matched_flat\| + \|missing_flat\|` the total; the overall score is `100·\|matched_flat\| / (\|matched_flat\| + \|missing_flat\|)` |
| MatchProperties.NoJobSkillsScoresZero | resumeiq-pro/app.py:182-217 | a job with no skill in any category gets overall score 0, no per-category entries and empty flat lists |
| MatchProperties.PerfectScoreIffCovered | resumeiq-pro/app.py:186-217 | the overall score is 100 exactly when the job lists some skill and the resume covers every job skill; then `missing_flat` is empty |
| MatchProperties.MatchedFlatExact | resumeiq-pro/app.py:206-212 | `matched_flat` holds exactly the entries with confidence 100 for a skill in both profiles under a taxonomy category; none twice when the keys are distinct |
| MatchProperties.MissingFlatExact | resumeiq-pro/app.py:206-217 | `missing_flat` holds exactly the entries for a job skill the resume lacks under a taxonomy category, with that category's priority; none twice when the keys are distinct |
| MatchProperties.FlatListsPartitionJobSkills | resumeiq-pro/app.py:186-217 | by (skill, category), the two flat lists are disjoint and together are exactly the job's skills under the taxonomy categories |
| MatchProperties.MatchedIffMentionedInBoth | resumeiq-pro/app.py:94-107 | for detected profiles, a skill is matched under a category exactly when the taxonomy lists it there and both texts mention it; it is missing exactly when only the job text mentions it |
| Contact.NonBlankStripped | resumeiq-pro/app.py:89 | the comprehension keeps no more lines than it is given, and none of them is empty |
| Contact.FirstNonBlankLine | resumeiq-pro/app.py:89-90 | `lines[0] if lines else fallback` (also at lines 151-152) is the fallback or the stripped first line of the text that does not strip to nothing |
| Contact.FirstLineOfHead | resumeiq-pro/app.py:89-90 | the head of the filtered lines is the stripped first non-blank line of the text |
| Contact.NonBlankStrippedEmpty | resumeiq-pro/app.py:89 | the comprehension is empty exactly when every line strips to nothing |
| Contact.FirstNonBlankShift | resumeiq-pro/app.py:89 | a blank line in front moves the first non-blank line down by one |
| Contact.NonBlankStrippedHead | resumeiq-pro/app.py:89-90 | a non-empty comprehension starts with the stripped first line that is not blank |
| Contact.BlankTextBlankLines | resumeiq-pro/app.py:89 | every line of an all-whitespace text strips to nothing |
| Contact.FallbackWhenBlank | resumeiq-pro/app.py:89-90 | an all-whitespace text gets the default |
| Contact.SomeLineNotBlank | resumeiq-pro/app.py:89 | a text with a non-whitespace character has a line that does not strip to nothing |
| Contact.StrippedLineInText | resumeiq-pro/app.py:89 | a stripped line is a window of the text with no line break |
| Contact.FirstLineWhenNotBlank | resumeiq-pro/app.py:89-90 | otherwise the result is the stripped first non-blank line: a non-empty window of the text, with no line break and no whitespace at either end |
| Contact.FirstNonBlankLineSpec | resumeiq-pro/app.py:89-90 | with a clean default, the result is always a clean single line, and it is the default for an all-whitespace text |
| Contact.CandidateName | resumeiq-pro/app.py:89-90 | the name is a clean single line, and "Candidate" for an all-whitespace text |
| Contact.JobTitle | resumeiq-pro/app.py:151-152 | the job title is a clean single line, and "Position" for an all-whitespace text |
| Contact.ExtractContactInfo | resumeiq-pro/app.py:64-92 | email, phone, LinkedIn and GitHub are each the first match or ""; the name is the first-line heuristic |
| Parsing.ParseResume | resumeiq-pro/app.py:119-128 | the resume dict holds the text, its length, the contact info and the detected skills |
| Parsing.ParseJobDescription | resumeiq-pro/app.py:144-158 | the job dict holds `text or ""`, the skills detected in it and the first-line title |
| Parsing.JobText | resumeiq-pro/app.py:145 | `text or ""` is empty exactly when no text or an empty text is given, and the text itself otherwise |
| Parsing.NoJobTextNoSkills | resumeiq-pro/app.py:145-152 | a missing or empty job text detects no skill with a non-empty name and gets the title "Position" |
| Parsing.NothingMentioned | resumeiq-pro/app.py:101-105 | when the text mentions none of the skills, none is kept |
| Evaluation.RoleFitScore | resumeiq-pro/app.py:313-319 | "Strong Fit" maps to 4.5, "Moderate Fit" to 3.5 and every other label to 2.0, each in both directions; every score lies in [0, 5] |
| Evaluation.LabelScore | resumeiq-pro/app.py:313-319 | the mapping applied to the value under "recommendation": 4.5 exactly for the string "Strong Fit", 3.5 exactly for "Moderate Fit", 2.0 for any other string and for a value that is not a string |
| Evaluation.WithRoleFit | resumeiq-pro/app.py:313-323 | adding `role_fit_score` keeps a dict that has a "recommendation"; the score is 3.0 exactly when the key is missing (the `KeyError` path), and always in [0, 5] |
| Evaluation.NoJsonFallback | resumeiq-pro/app.py:298-311 | the record used when no JSON object comes back recommends "Moderate Fit" with no red flags |
| Evaluation.ExceptionFallback | resumeiq-pro/app.py:325-341 | the exception record recommends "Moderate Fit" but carries 3.0 stars, less than the 3.5 the mapping gives that label |
| Evaluation.AnalyzeWithAi | resumeiq-pro/app.py:277-341 | each outcome of the model call gives its record; a parsed object keeps its fields and gets its label's score, 2.0 for a value that is not a string; the score is 3.0 exactly when the call failed or the object has no "recommendation"; the score lies in [0, 5] |
| Batch.SummaryCounts | resumeiq-pro/app.py:555-560 | a row's matched and missing counts are the matched and missing job skills, and its ATS score is the matched share, in [0, 100] |
| Batch.SummaryTopSkills | resumeiq-pro/app.py:561 | a row has `min(matched_count, 3)` top skills, each found in both profiles under a taxonomy category |
| Batch.TopSkills | resumeiq-pro/app.py:561 | `matched_flat[:3]` gives at most three skills, those of the first flat entries in order |
| Batch.Summarize | resumeiq-pro/app.py:555-562 | a row has as many top skills as matched skills, up to three, taken from the front of `matched_flat` |
| Batch.SummaryFaithful | resumeiq-pro/app.py:555-562 | a row built from a match result has that result's score, counts and first three `matched_flat` skills, and states both of the above |
| Batch.Swap | resumeiq-pro/app.py:571 | exchanging two rows keeps the same rows |
| Batch.InsertingStart | resumeiq-pro/app.py:571 | inserting the next row starts from an ordered prefix |
| Batch.InsertingSwap | resumeiq-pro/app.py:571 | moving the inserted row up past a lower-scored row keeps the insertion going |
| Batch.InsertingDone | resumeiq-pro/app.py:571 | the prefix is ordered once the row above does not score lower |
| Batch.SortByScore | resumeiq-pro/app.py:571 | the rows end up in non-increasing order of ATS score, as a permutation of the rows given |
| Batch.RowsExtend | resumeiq-pro/app.py:545-562 | appending the next upload's row keeps every row the row of its upload |
| Batch.SummarizeOne | resumeiq-pro/app.py:552-562 | one upload's row: name and email from its contact info; score, counts and top skills (the first three `matched_flat` skills) read off a result of `calculate_skill_match` for its profile against the job's |
| Batch.SummarizeAll | resumeiq-pro/app.py:543-562 | one row per upload, in upload order, each read off a match result for its upload as `SummarizeOne` states |
| Batch.RankRows | resumeiq-pro/app.py:571 | the ranked list is a permutation of the rows, in non-increasing order of ATS score |
| Batch.BatchAnalyze | resumeiq-pro/app.py:534-573 | no uploads is the "No resumes uploaded" error and only then; otherwise the result is a permutation of one row per upload (read off a match result, top skills from the front of `matched_flat`), sorted by ATS score, best first |
| Batch.RankedRowsBounded | resumeiq-pro/app.py:561-571 | every ranked row has at most three top skills and a score in [0, 100] |

## Left out

- File reading (`parse_pdf`, `parse_docx`, the extension dispatch in
  `parse_resume`, the `file_path` branch of `parse_job_description`), saving
  and removing uploads. The extracted text is an input.
- The email, phone, LinkedIn and GitHub regular expressions. What
  `re.findall` returns for each is an input, and the model states the
  first-match-or-empty rule over it.
- The language-model call: the prompt, `llm.invoke`, the greedy `{.*}`
  search and `json.loads`. Their outcome is an input (call failed, no JSON
  object, or a parsed object). A failing `json.loads` counts as a failed
  call. A parsed object's fields other than "recommendation" are taken as
  strings and string lists; the "recommendation" value may be any JSON
  value. Only the first 15 flat skills go into the prompt; the prompt is
  not modelled.
- The chatbot, the Flask routes, the session, templates and timestamps.
- `round(x, 1)` on the category and overall scores. The scores are exact
  rationals.
- `str.lower()` beyond ASCII letters. Other characters are kept as they are.
- The per-file exception handler of the batch loop and the batch route's
  500 handler. A file whose parsing raises is not modelled.
- The always-empty `partial` entry of the match result.
- Scoring.CalculateSkillMatch: the order of skills within one category of
  `matched`, `missing`, `matched_flat` and `missing_flat` is not stated,
  because it comes from iterating a Python set.
- Batch.SortByScore: stability is not stated. The sort key is the exact
  score, not the rounded one, so two rows whose scores round to the same
  value may be ordered differently from the source.
- Batch.BatchAnalyze: the rows in upload order are a ghost result.

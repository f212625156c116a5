/** `extract_contact_info` in app.py: the first-line heuristic for the
    candidate's name, which `parse_job_description` reuses for the job title,
    and the first-match-or-empty rule for the pattern-matched contact fields.
    The regular expressions themselves are not modelled: what `re.findall`
    returns for each pattern is an input. */
module Contact {
  import opened Text

  /** `[line.strip() for line in lines if line.strip()]`. */
  function NonBlankStripped(lines: seq<string>): (r: seq<string>)
    ensures |r| <= |lines|
    ensures forall k :: 0 <= k < |r| ==> r[k] != []
  {
    if lines == [] then []
    else
      var head := Strip(lines[0]);
      (if head != [] then [head] else []) + NonBlankStripped(lines[1..])
  }

  /** `lines[0] if lines else fallback`, where `lines` are the stripped
      non-blank lines of `text`: the fallback, or the first line of the text
      that does not strip to nothing, stripped. */
  function FirstNonBlankLine(text: string, fallback: string): (r: string)
    ensures r == fallback || IsFirstLineOf(r, text)
  {
    var lines := NonBlankStripped(Split(text, '\n'));
    if lines == [] then fallback
    else
      FirstLineOfHead(text);
      lines[0]
  }

  /** `r` is the first line of `text` that does not strip to nothing, stripped. */
  ghost predicate IsFirstLineOf(r: string, text: string) {
    exists k :: IsFirstNonBlank(Split(text, '\n'), k) && r == Strip(Split(text, '\n')[k])
  }

  /** The head of the filtered lines of a text is its first non-blank line. */
  lemma FirstLineOfHead(text: string)
    requires NonBlankStripped(Split(text, '\n')) != []
    ensures IsFirstLineOf(NonBlankStripped(Split(text, '\n'))[0], text)
  {
    NonBlankStrippedHead(Split(text, '\n'));
  }

  /** The filtered list is empty exactly when every line strips to nothing. */
  lemma {:induction false} NonBlankStrippedEmpty(lines: seq<string>)
    ensures NonBlankStripped(lines) == [] <==> forall k :: 0 <= k < |lines| ==> Strip(lines[k]) == []
  {
    if lines != [] {
      var head := Strip(lines[0]);
      var tail := lines[1..];
      NonBlankStrippedEmpty(tail);
      assert NonBlankStripped(lines) == (if head != [] then [head] else []) + NonBlankStripped(tail);
      if forall k :: 0 <= k < |tail| ==> Strip(tail[k]) == [] {
        forall k | 1 <= k < |lines| ensures Strip(lines[k]) == [] {
          assert lines[k] == tail[k - 1];
        }
      }
    }
  }

  /** `k` is the index of the first line that does not strip to nothing. */
  predicate IsFirstNonBlank(lines: seq<string>, k: int) {
    0 <= k < |lines| && Strip(lines[k]) != [] && forall j :: 0 <= j < k ==> Strip(lines[j]) == []
  }

  /** Prepending a blank line moves the first non-blank line down by one. */
  lemma FirstNonBlankShift(lines: seq<string>, k: int)
    requires lines != [] && Strip(lines[0]) == [] && IsFirstNonBlank(lines[1..], k)
    ensures IsFirstNonBlank(lines, k + 1) && lines[k + 1] == lines[1..][k]
  {
    forall j | 1 <= j < k + 1 ensures Strip(lines[j]) == [] {
      assert lines[j] == lines[1..][j - 1];
    }
  }

  /** A non-empty filtered list starts with the stripped first line that does
      not strip to nothing. */
  lemma {:induction false} NonBlankStrippedHead(lines: seq<string>)
    requires NonBlankStripped(lines) != []
    ensures exists k :: IsFirstNonBlank(lines, k) && NonBlankStripped(lines)[0] == Strip(lines[k])
  {
    var head := Strip(lines[0]);
    var tail := lines[1..];
    if head == [] {
      assert NonBlankStripped(lines) == NonBlankStripped(tail);
      NonBlankStrippedHead(tail);
      var k :| IsFirstNonBlank(tail, k) && NonBlankStripped(tail)[0] == Strip(tail[k]);
      FirstNonBlankShift(lines, k);
    } else {
      assert NonBlankStripped(lines)[0] == Strip(lines[0]);
      assert IsFirstNonBlank(lines, 0);
    }
  }

  /** Every line of an all-whitespace text strips to nothing. */
  lemma BlankTextBlankLines(text: string, k: nat)
    requires forall m :: 0 <= m < |text| ==> IsSpace(text[m])
    requires k < |Split(text, '\n')|
    ensures Strip(Split(text, '\n')[k]) == []
  {
    var line := Split(text, '\n')[k];
    SplitPieceOccurs(text, '\n', k);
    var i :| OccursAt(line, text, i);
    forall m | 0 <= m < |line| ensures IsSpace(line[m]) {
      assert line[m] == text[i + m];
    }
  }

  /** The heuristic picks the fallback when the text is all whitespace. */
  lemma FallbackWhenBlank(text: string, fallback: string)
    requires forall k :: 0 <= k < |text| ==> IsSpace(text[k])
    ensures FirstNonBlankLine(text, fallback) == fallback
  {
    var lines := Split(text, '\n');
    NonBlankStrippedEmpty(lines);
    forall k | 0 <= k < |lines| ensures Strip(lines[k]) == [] {
      BlankTextBlankLines(text, k);
    }
  }

  /** A text with a character other than whitespace has a line that does
      not strip to nothing. */
  lemma SomeLineNotBlank(text: string)
    requires exists k :: 0 <= k < |text| && !IsSpace(text[k])
    ensures NonBlankStripped(Split(text, '\n')) != []
  {
    var lines := Split(text, '\n');
    var k0 :| 0 <= k0 < |text| && !IsSpace(text[k0]);
    var c := text[k0];
    SplitKeepsChars(text, '\n', c);
    var p :| 0 <= p < |lines| && c in lines[p];
    var m :| 0 <= m < |lines[p]| && lines[p][m] == c;
    assert Strip(lines[p]) != [];
    NonBlankStrippedEmpty(lines);
  }

  /** A line of the text, stripped, is a window of the text without a line
      break. */
  lemma StrippedLineInText(text: string, k: nat)
    requires k < |Split(text, '\n')|
    ensures var r := Strip(Split(text, '\n')[k]);
      '\n' !in r && exists i :: OccursAt(r, text, i)
  {
    var line := Split(text, '\n')[k];
    var r := Strip(line);
    var i :| StrippedAt(r, line, i);
    SplitPieceOccurs(text, '\n', k);
    var i' :| OccursAt(line, text, i');
    OccursTrans(r, line, text, i, i');
    OccursChars(r, line, i);
  }

  /** Otherwise it picks the first line that is not blank, stripped: a window
      of the text with no line break and no whitespace at either end. */
  lemma FirstLineWhenNotBlank(text: string, fallback: string)
    requires exists k :: 0 <= k < |text| && !IsSpace(text[k])
    ensures var r := FirstNonBlankLine(text, fallback);
      var lines := Split(text, '\n');
      && r != [] && !IsSpace(r[0]) && !IsSpace(r[|r| - 1]) && '\n' !in r
      && (exists i :: OccursAt(r, text, i))
      && exists k :: IsFirstNonBlank(lines, k) && r == Strip(lines[k])
  {
    var lines := Split(text, '\n');
    SomeLineNotBlank(text);
    NonBlankStrippedHead(lines);
    var r := NonBlankStripped(lines)[0];
    assert FirstNonBlankLine(text, fallback) == r;
    var k :| IsFirstNonBlank(lines, k) && r == Strip(lines[k]);
    StrippedLineInText(text, k);
  }

  /** A single line with no whitespace at either end. */
  predicate IsCleanLine(r: string) {
    r != [] && !IsSpace(r[0]) && !IsSpace(r[|r| - 1]) && '\n' !in r
  }

  /** Both cases of the heuristic together: with a clean fallback the result
      is always a clean line, and the fallback for an all-whitespace text. */
  lemma FirstNonBlankLineSpec(text: string, fallback: string)
    requires IsCleanLine(fallback)
    ensures IsCleanLine(FirstNonBlankLine(text, fallback))
    ensures (forall k :: 0 <= k < |text| ==> IsSpace(text[k])) ==> FirstNonBlankLine(text, fallback) == fallback
  {
    if forall k :: 0 <= k < |text| ==> IsSpace(text[k]) {
      FallbackWhenBlank(text, fallback);
    } else {
      FirstLineWhenNotBlank(text, fallback);
    }
  }

  /** `contact['name']`: the first non-blank line, or "Candidate". */
  function CandidateName(text: string): (name: string)
    ensures IsCleanLine(name)
    ensures (forall k :: 0 <= k < |text| ==> IsSpace(text[k])) ==> name == "Candidate"
  {
    assert IsCleanLine("Candidate");
    FirstNonBlankLineSpec(text, "Candidate");
    FirstNonBlankLine(text, "Candidate")
  }

  /** `job_title`: the first non-blank line, or "Position". */
  function JobTitle(text: string): (title: string)
    ensures IsCleanLine(title)
    ensures (forall k :: 0 <= k < |text| ==> IsSpace(text[k])) ==> title == "Position"
  {
    assert IsCleanLine("Position");
    FirstNonBlankLineSpec(text, "Position");
    FirstNonBlankLine(text, "Position")
  }

  /** What `re.findall` returns for the email, phone, LinkedIn and GitHub
      patterns, each list in text order. */
  datatype PatternMatches = PatternMatches(
    emails: seq<string>, phones: seq<string>, linkedins: seq<string>, githubs: seq<string>)

  /** The `contact` dict. */
  datatype ContactInfo = ContactInfo(
    email: string, phone: string, linkedin: string, github: string, name: string)

  /** `matches[0] if matches else ""`. */
  function FirstOrEmpty(matches: seq<string>): string {
    if matches == [] then "" else matches[0]
  }

  /** Is `field` what `extract_contact_info` stores for these matches: the
      first one, or "" when there is none? */
  predicate IsFirstMatch(field: string, matches: seq<string>) {
    if matches == [] then field == "" else field == matches[0]
  }

  /** `extract_contact_info`: each pattern field is its first match or "",
      and the name is the first-line heuristic with default "Candidate". */
  function ExtractContactInfo(text: string, found: PatternMatches): (info: ContactInfo)
    ensures IsFirstMatch(info.email, found.emails) && IsFirstMatch(info.phone, found.phones)
    ensures IsFirstMatch(info.linkedin, found.linkedins) && IsFirstMatch(info.github, found.githubs)
    ensures IsCleanLine(info.name)
    ensures (forall k :: 0 <= k < |text| ==> IsSpace(text[k])) ==> info.name == "Candidate"
  {
    ContactInfo(
      FirstOrEmpty(found.emails), FirstOrEmpty(found.phones),
      FirstOrEmpty(found.linkedins), FirstOrEmpty(found.githubs),
      CandidateName(text))
  }
}

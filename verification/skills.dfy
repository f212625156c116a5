/** Taxonomy-based skill detection: `extract_skills_from_text` in app.py.

    A Python dict that keeps insertion order (the skill taxonomy, and the
    per-category lists the detector and the scorer build) is a sequence of
    `Group`s: one entry per key, in key order. */
module Skills {
  import opened Text

  /** One dict entry: a category and its ordered list of skills. */
  datatype Group = Group(category: string, skills: seq<string>)

  /** An ordered dict from category to list of skills. */
  type Groups = seq<Group>

  /** The keys of an ordered dict, in order. */
  function Categories(d: Groups): seq<string> {
    seq(|d|, i requires 0 <= i < |d| => d[i].category)
  }

  /** Appending an entry appends its key. */
  lemma CategoriesAppend(d: Groups, g: Group)
    ensures Categories(d + [g]) == Categories(d) + [g.category]
  {
  }

  /** The keys of a prefix are a prefix of the keys. */
  lemma CategoriesPrefix(d: Groups, n: nat)
    requires n <= |d|
    ensures Categories(d[..n]) == Categories(d)[..n]
  {
  }

  /** Dict keys are unique. */
  predicate DistinctCategories(d: Groups) {
    forall i, j :: 0 <= i < j < |d| ==> d[i].category != d[j].category
  }

  /** `d.get(category, [])`. */
  function Lookup(d: Groups, category: string): (r: seq<string>)
    ensures category !in Categories(d) ==> r == []
    ensures forall i :: 0 <= i < |d| && d[i].category == category && DistinctCategories(d) ==> r == d[i].skills
  {
    if d == [] then []
    else if d[0].category == category then
      assert Categories(d)[0] == category;
      d[0].skills
    else
      assert Categories(d[1..]) == Categories(d)[1..];
      Lookup(d[1..], category)
  }

  /** The elements of a list, as a set. */
  function Elems(xs: seq<string>): set<string> {
    set x | x in xs
  }

  /** A list without repeated elements. */
  predicate NoDup(xs: seq<string>) {
    forall i, j :: 0 <= i < j < |xs| ==> xs[i] != xs[j]
  }

  /** A list without repeats has as many elements as its set. */
  lemma {:induction false} NoDupCard(xs: seq<string>)
    requires NoDup(xs)
    ensures |Elems(xs)| == |xs|
  {
    if xs != [] {
      var init := xs[..|xs| - 1];
      NoDupCard(init);
      assert Elems(xs) == Elems(init) + {xs[|xs| - 1]};
      assert xs[|xs| - 1] !in Elems(init);
    }
  }

  /** The detector's test for one skill: the lower-cased skill name is a
      substring of the lower-cased text. There is no word-boundary check. */
  predicate Mentions(lowerText: string, skill: string) {
    IsSubstring(Lower(skill), lowerText)
  }

  /** The skills of `skills` that the text mentions, in their listed order. */
  function Present(skills: seq<string>, lowerText: string): (r: seq<string>)
    ensures |r| <= |skills|
    ensures forall s :: s in r <==> s in skills && Mentions(lowerText, s)
  {
    if skills == [] then []
    else
      var last := skills[|skills| - 1];
      var init := skills[..|skills| - 1];
      assert skills == init + [last];
      Present(init, lowerText) + (if Mentions(lowerText, last) then [last] else [])
  }

  /** The appending loop keeps the listed order and every repeat: the skills
      of a list made of two parts are those of the first part followed by
      those of the second. With `PresentOne` this fixes `Present` on every
      list. */
  lemma {:induction false} PresentAppend(a: seq<string>, b: seq<string>, lowerText: string)
    ensures Present(a + b, lowerText) == Present(a, lowerText) + Present(b, lowerText)
  {
    if b == [] {
      assert a + b == a;
    } else {
      var init, last := b[..|b| - 1], b[|b| - 1];
      var tail := if Mentions(lowerText, last) then [last] else [];
      assert (a + b)[..|a + b| - 1] == a + init && (a + b)[|a + b| - 1] == last;
      assert Present(a + b, lowerText) == Present(a + init, lowerText) + tail;
      assert Present(b, lowerText) == Present(init, lowerText) + tail;
      PresentAppend(a, init, lowerText);
    }
  }

  /** A one-skill list keeps its skill exactly when the text mentions it. */
  lemma PresentOne(s: string, lowerText: string)
    ensures Present([s], lowerText) == if Mentions(lowerText, s) then [s] else []
  {
    assert [s][..0] == [];
  }

  /** The dict `extract_skills_from_text(text, taxonomy)` returns: every
      category of the taxonomy, in order, with the skills listed under it that
      the text mentions, in listed order. */
  function DetectSkills(taxonomy: Groups, text: string): (found: Groups)
    ensures Categories(found) == Categories(taxonomy)
    ensures forall i, s :: 0 <= i < |found| ==>
              (s in found[i].skills <==> s in taxonomy[i].skills && Mentions(Lower(text), s))
  {
    seq(|taxonomy|, i requires 0 <= i < |taxonomy| =>
      Group(taxonomy[i].category, Present(taxonomy[i].skills, Lower(text))))
  }

  /** `extract_skills_from_text`: nested loops that append every mentioned
      skill to its category's list. */
  method ExtractSkills(text: string, taxonomy: Groups) returns (found: Groups)
    ensures found == DetectSkills(taxonomy, text)
  {
    var textLower := Lower(text);
    found := [];
    for i := 0 to |taxonomy|
      invariant found == DetectSkills(taxonomy[..i], text)
    {
      var category := taxonomy[i].category;
      var skillsList := taxonomy[i].skills;
      var hits: seq<string> := [];
      for j := 0 to |skillsList|
        invariant hits == Present(skillsList[..j], textLower)
      {
        var skill := skillsList[j];
        var skillLower := Lower(skill);
        if IsSubstring(skillLower, textLower) {
          hits := hits + [skill];
        }
        assert skillsList[..j + 1][..j] == skillsList[..j];
      }
      assert skillsList[..|skillsList|] == skillsList;
      found := found + [Group(category, hits)];
    }
    assert taxonomy[..|taxonomy|] == taxonomy;
  }

  /** The detector keeps each category's listed order: when a category's
      list is made of two parts, its detected skills are those of the first
      part followed by those of the second. */
  lemma DetectKeepsListedOrder(taxonomy: Groups, text: string, i: nat, a: seq<string>, b: seq<string>)
    requires i < |taxonomy| && taxonomy[i].skills == a + b
    ensures DetectSkills(taxonomy, text)[i].skills == Present(a, Lower(text)) + Present(b, Lower(text))
  {
    PresentAppend(a, b, Lower(text));
  }

  /** Looking a category up in the detector's output gives the skills listed
      under it that the text mentions; a category outside the taxonomy gives
      nothing. */
  lemma {:induction false} LookupDetected(taxonomy: Groups, text: string, category: string)
    requires DistinctCategories(taxonomy)
    ensures Lookup(DetectSkills(taxonomy, text), category) == Present(Lookup(taxonomy, category), Lower(text))
  {
    var found := DetectSkills(taxonomy, text);
    if category in Categories(taxonomy) {
      var i :| 0 <= i < |taxonomy| && taxonomy[i].category == category;
      assert found[i].category == category;
      forall j | 0 <= j < |found| && j != i ensures found[j].category != category {
        if j < i {
          assert taxonomy[j].category != taxonomy[i].category;
        } else {
          assert taxonomy[i].category != taxonomy[j].category;
        }
      }
      assert DistinctCategories(found);
    } else {
      assert category !in Categories(found);
    }
  }
}

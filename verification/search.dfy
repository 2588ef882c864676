/**
 * The search side of the interface: the candidate query, the markup of a
 * candidate's skill list, and the highlighting of skills in a candidate's text.
 *
 * The store is not modelled as a service: a query sees the stored records as
 * a sequence, `None` when the query fails or its answer lacks the expected
 * keys. The store is assumed to return matching records in stored order.
 */
module SearchView {
  import opened Wrappers
  import opened Chars
  import opened WordMatch
  import opened Records
  import Skills

  /** The number of candidates asked for when no limit is given. */
  const DefaultLimit: nat := 5

  /** The store's `ContainsAll` filter on `skills`: every selected skill is among the record's skills. */
  predicate ContainsAll(x: Resume, selected: seq<string>) {
    forall s :: s in selected ==> s in x.skills
  }

  /** The records satisfying the filter, in stored order. */
  function Matching(store: seq<Resume>, selected: seq<string>): (r: seq<Resume>)
    ensures |r| <= |store|
    ensures forall x :: x in r <==> x in store && ContainsAll(x, selected)
  {
    if |store| == 0 then []
    else (if ContainsAll(store[0], selected) then [store[0]] else []) + Matching(store[1..], selected)
  }

  /**
   * `find_best_candidates`: nothing for an empty selection (no query is
   * made) or a failed query; otherwise the first `limit` records that hold
   * every selected skill.
   */
  function FindBestCandidates(selected: seq<string>, limit: nat, store: Option<seq<Resume>>): (r: seq<Resume>)
    ensures |selected| == 0 || store.None? ==> r == []
    ensures |r| <= limit
    ensures forall x :: x in r ==> ContainsAll(x, selected)
    ensures store.Some? && |selected| > 0 ==>
      var m := Matching(store.value, selected);
      |r| == (if |m| < limit then |m| else limit) && r == m[..|r|]
  {
    if |selected| == 0 then []
    else
      match store
      case None => []
      case Some(records) =>
        var m := Matching(records, selected);
        if |m| <= limit then m else m[..limit]
  }

  /**
   * The interface asks for candidates without a limit, so it shows at most
   * five, and exactly five whenever five or more stored records match.
   */
  lemma InterfaceShowsAtMostFive(selected: seq<string>, records: seq<Resume>)
    ensures var r := FindBestCandidates(selected, DefaultLimit, Some(records));
      && |r| <= 5
      && (|selected| > 0 && |Matching(records, selected)| >= 5 ==> |r| == 5)
  {
  }

  /** Every returned record holds every selected skill: the selection is a conjunction. */
  lemma CandidatesHoldAllSelected(selected: seq<string>, limit: nat, records: seq<Resume>, x: Resume, s: string)
    requires x in FindBestCandidates(selected, limit, Some(records)) && s in selected
    ensures x in records && s in x.skills
  {
    var m := Matching(records, selected);
    assert x in m;
  }

  /**
   * No matching record is passed over while fewer than `limit` have been
   * returned: a stored record that holds every selected skill is returned
   * whenever the limit leaves room for all matching records.
   */
  lemma CandidatesCompleteUnderLimit(selected: seq<string>, limit: nat, records: seq<Resume>, x: Resume)
    requires |selected| > 0 && x in records && ContainsAll(x, selected)
    requires |Matching(records, selected)| <= limit
    ensures x in FindBestCandidates(selected, limit, Some(records))
  {
  }

  /** When no stored record holds every selected skill, nothing is returned. */
  lemma {:induction false} NoMatchingRecord(records: seq<Resume>, selected: seq<string>)
    requires forall x :: x in records ==> !ContainsAll(x, selected)
    ensures Matching(records, selected) == []
  {
    if |records| > 0 {
      assert records[0] in records;
      assert forall x :: x in records[1..] ==> x in records;
      NoMatchingRecord(records[1..], selected);
    }
  }

  /**
   * "CI/CD" and "DevOps" are offered for selection but extraction never
   * reports them, so over records whose skills come from extraction a
   * selection including either finds no candidate.
   */
  lemma UiOnlySelectionFindsNothing(selected: seq<string>, limit: nat, records: seq<Resume>)
    requires forall x, s :: x in records && s in x.skills ==> s in Skills.SkillSet
    requires "CI/CD" in selected || "DevOps" in selected
    ensures FindBestCandidates(selected, limit, Some(records)) == []
  {
    Skills.UiOnlySkillsNeverExtracted(None);
    NoMatchingRecord(records, selected);
  }

  // ---------------------------------------------------------------------------
  // Markup
  // ---------------------------------------------------------------------------

  const SpanOpen: string := "<span style=\"background-color: #ffd700; font-weight: bold;\">"
  const SpanClose: string := "</span>"

  /** The highlight markup around a skill's name. */
  function Span(skill: string): (r: string)
    ensures |r| == |SpanOpen| + |skill| + |SpanClose|
    ensures r[..|SpanOpen|] == SpanOpen && r[|r| - |SpanClose|..] == SpanClose
    ensures r[|SpanOpen|..|r| - |SpanClose|] == skill
  {
    SpanOpen + skill + SpanClose
  }

  /** Span is injective: the skill can be read back from its markup. */
  lemma SpanInjective(a: string, b: string)
    requires Span(a) == Span(b)
    ensures a == b
  {
    assert a == Span(a)[|SpanOpen|..|Span(a)| - |SpanClose|];
  }

  /**
   * The entries of a candidate's skill list: each skill in its place, wrapped
   * in the highlight markup exactly when it is selected.
   */
  function MarkSkills(skills: seq<string>, selected: seq<string>): (r: seq<string>)
    ensures |r| == |skills|
    ensures forall i :: 0 <= i < |r| ==> (skills[i] in selected <==> r[i] != skills[i])
    ensures forall i :: 0 <= i < |r| ==> r[i] == skills[i] || r[i] == Span(skills[i])
  {
    seq(|skills|, i requires 0 <= i < |skills| => if skills[i] in selected then Span(skills[i]) else skills[i])
  }

  const SkillsLabel: string := "**Skills:** "

  /**
   * The skills line shown for a candidate that lists skills: the bold label,
   * then the marked entries joined with commas. With nothing selected it is
   * the candidate's own skill list.
   */
  function SkillsLine(skills: seq<string>, selected: seq<string>): (r: string)
    ensures |r| >= |SkillsLabel| && r[..|SkillsLabel|] == SkillsLabel
    ensures |selected| == 0 ==> r == SkillsLabel + Join(skills, ", ")
  {
    NothingSelectedMarksNothing(skills);
    SkillsLabel + Join(MarkSkills(skills, selected), ", ")
  }

  /** A one-skill line is the label and the skill, wrapped in the markup when it is selected. */
  lemma SkillsLineOne(skill: string, selected: seq<string>)
    ensures SkillsLine([skill], selected) == SkillsLabel + (if skill in selected then Span(skill) else skill)
  {
    assert MarkSkills([skill], selected)[0] == (if skill in selected then Span(skill) else skill);
  }

  /**
   * One more skill adds a comma, a space and that skill's entry, marked
   * exactly when it is selected; with SkillsLineOne this fixes the line for
   * every non-empty skill list and every selection.
   */
  lemma SkillsLineAppend(skills: seq<string>, skill: string, selected: seq<string>)
    requires |skills| > 0
    ensures SkillsLine(skills + [skill], selected) ==
      SkillsLine(skills, selected) + ", " + (if skill in selected then Span(skill) else skill)
  {
    var m := MarkSkills(skills + [skill], selected);
    assert m[..|skills|] == MarkSkills(skills, selected);
    assert m[|skills|] == (if skill in selected then Span(skill) else skill);
  }

  /** With nothing selected the list is shown as it is. */
  lemma NothingSelectedMarksNothing(skills: seq<string>)
    ensures MarkSkills(skills, []) == skills
  {
  }

  /** Removing the markup gives back the candidate's skills. */
  lemma MarkupRoundTrip(skills: seq<string>, selected: seq<string>, i: nat)
    requires i < |skills|
    ensures var m := MarkSkills(skills, selected)[i];
      m == skills[i] || (|m| >= |SpanOpen| + |SpanClose| && m[|SpanOpen|..|m| - |SpanClose|] == skills[i])
  {
  }

  // ---------------------------------------------------------------------------
  // highlight_skills
  // ---------------------------------------------------------------------------

  /**
   * `highlight_skills`: for each skill in turn, every case-insensitive
   * whole-word occurrence in the text produced so far is replaced by the
   * markup around the skill's own spelling.
   */
  function HighlightSkills(text: string, skills: seq<string>): string
    decreases |skills|
  {
    if |skills| == 0 then text
    else HighlightSkills(Substitute(skills[0], Span(skills[0]), text), skills[1..])
  }

  /** Highlighting is a left-to-right fold: a longer list continues from the shorter list's result. */
  lemma {:induction false} HighlightAppend(text: string, a: seq<string>, b: seq<string>)
    decreases |a|
    ensures HighlightSkills(text, a + b) == HighlightSkills(HighlightSkills(text, a), b)
  {
    if |a| == 0 {
      assert a + b == b;
    } else {
      assert (a + b)[1..] == a[1..] + b;
      HighlightAppend(Substitute(a[0], Span(a[0]), text), a[1..], b);
    }
  }

  /** Text in which no skill occurs as a whole word, in any case, is left unchanged. */
  lemma {:induction false} HighlightWithoutOccurrence(text: string, skills: seq<string>)
    requires forall i: nat, k: nat :: i < |skills| ==> !MatchAtIgnoreCase(skills[i], text, k)
    ensures HighlightSkills(text, skills) == text
  {
    if |skills| > 0 {
      SubstituteWithoutMatch(skills[0], Span(skills[0]), text);
      HighlightWithoutOccurrence(text, skills[1..]);
    }
  }

  /**
   * One skill: the text before the leftmost case-insensitive whole-word
   * occurrence is kept, the occurrence becomes the markup around the skill's
   * own spelling (whatever the case of the text), and highlighting resumes
   * after it.
   */
  lemma HighlightLeftmost(text: string, skill: string, k: nat)
    requires |skill| > 0
    requires Search(Lower(skill), Lower(text)) == Some(k)
    ensures k + |skill| <= |text|
    ensures HighlightSkills(text, [skill]) ==
      text[..k] + Span(skill) + SubFrom(skill, Span(skill), text, k + |skill|)
  {
    SearchIsFindFrom(Lower(skill), Lower(text));
    SubstituteLeftmost(skill, Span(skill), text, k);
    HighlightOne(text, skill);
  }

  /** Highlighting one skill is one substitution. */
  lemma HighlightOne(text: string, skill: string)
    ensures HighlightSkills(text, [skill]) == Substitute(skill, Span(skill), text)
  {
    assert [skill][1..] == [];
  }

  /** Lower-casing "Go" and "I use GO.". */
  lemma LowerOfUpperCaseGoSentence()
    ensures Lower("Go") == "go" && Lower("I use GO.") == "i use go."
  {
  }

  /** The leftmost whole-word "go" in "i use go." is at position 6. */
  lemma GoFoundInLoweredSentence()
    ensures Search("go", "i use go.") == Some(6)
  {
    assert MatchAt("go", "i use go.", 6);
  }

  /** Nothing after "GO" in "I use GO." is highlighted. */
  lemma NothingHighlightedAfterGo()
    ensures SubFrom("Go", Span("Go"), "I use GO.", 8) == "."
  {
    assert !MatchAtIgnoreCase("Go", "I use GO.", 8);
  }

  /** "GO" in the text is highlighted, and shown as the skill's own spelling "Go". */
  lemma HighlightUsesSkillSpelling()
    ensures HighlightSkills("I use GO.", ["Go"]) == "I use " + Span("Go") + "."
  {
    var text := "I use GO.";
    assert HighlightSkills(text, ["Go"]) == text[..6] + Span("Go") + SubFrom("Go", Span("Go"), text, 8) by {
      LowerOfUpperCaseGoSentence();
      GoFoundInLoweredSentence();
      HighlightLeftmost(text, "Go", 6);
    }
    NothingHighlightedAfterGo();
    PrefixBeforeGo();
  }

  /** The text before "GO" in "I use GO.". */
  lemma PrefixBeforeGo()
    ensures "I use GO."[..6] == "I use "
  {
  }
}

/**
 * Skill extraction of the CV processor: a fixed catalogue of skill names is
 * searched in the lower-cased text, each name (and a few spelling variants
 * of it) as a whole word; the result is the set of catalogue names found.
 *
 * The processor also holds a dictionary of skill aliases (`tech_skills`);
 * only its keys are used, as the list of skills offered for selection in the
 * search interface. The extractor never consults it.
 */
module Skills {
  import opened Wrappers
  import opened Chars
  import opened WordMatch

  /** The skill names searched for, by category, in the order they are listed. */
  const Languages: seq<string> := [
    "Python", "Java", "JavaScript", "C++", "C#", "Ruby", "PHP", "Swift", "Kotlin", "Go",
    "Rust", "TypeScript", "Scala", "R", "MATLAB", "Perl", "Haskell", "Lua", "Julia"]

  const WebDevelopment: seq<string> := [
    "HTML", "CSS", "React", "Angular", "Vue.js", "Node.js", "Django", "Flask", "Spring",
    "ASP.NET", "Laravel", "Express.js", "jQuery", "Bootstrap", "Sass", "Less"]

  const Databases: seq<string> := [
    "SQL", "MySQL", "PostgreSQL", "MongoDB", "Redis", "Cassandra", "Oracle", "SQLite",
    "MariaDB", "DynamoDB", "Neo4j", "Elasticsearch"]

  const CloudAndDevOps: seq<string> := [
    "AWS", "Azure", "GCP", "Docker", "Kubernetes", "Jenkins", "Git", "GitHub", "GitLab",
    "Terraform", "Ansible", "Chef", "Puppet", "CircleCI", "Travis CI"]

  const DataScience: seq<string> := [
    "Machine Learning", "Deep Learning", "TensorFlow", "PyTorch", "Scikit-learn", "Pandas",
    "NumPy", "Data Science", "NLP", "Computer Vision", "AI", "Neural Networks"]

  const Mobile: seq<string> := [
    "Android", "iOS", "React Native", "Flutter", "Xamarin", "SwiftUI", "Kotlin Multiplatform"]

  const Testing: seq<string> := [
    "JUnit", "TestNG", "Selenium", "Cypress", "Jest", "Mocha", "PyTest", "Robot Framework"]

  const OtherTools: seq<string> := [
    "Jira", "Confluence", "Slack", "Trello", "Agile", "Scrum", "Kanban"]

  const Catalogue: seq<string> :=
    Languages + WebDevelopment + Databases + CloudAndDevOps + DataScience + Mobile + Testing + OtherTools

  const SkillSet: set<string> := set s | s in Catalogue

  /** The alias dictionary, in insertion order: canonical name and its aliases. */
  const TechSkills: seq<(string, seq<string>)> := [
    ("Python", ["python3", "py"]),
    ("JavaScript", ["js", "es6", "node.js", "nodejs"]),
    ("Java", ["java8", "java11", "java17"]),
    ("C++", ["cpp", "c plus plus"]),
    ("C#", ["csharp", "c sharp", ".net"]),
    ("SQL", ["mysql", "postgresql", "oracle"]),
    ("React", ["reactjs", "react.js"]),
    ("Angular", ["angular.js", "angularjs"]),
    ("Vue.js", ["vuejs", "vue"]),
    ("Docker", ["containerization", "docker-compose"]),
    ("Kubernetes", ["k8s", "container orchestration"]),
    ("AWS", ["amazon web services", "ec2", "s3"]),
    ("Azure", ["microsoft azure", "azure cloud"]),
    ("GCP", ["google cloud", "google cloud platform"]),
    ("Git", ["github", "gitlab", "version control"]),
    ("CI/CD", ["continuous integration", "jenkins", "gitlab ci"]),
    ("Machine Learning", ["ml", "deep learning", "ai"]),
    ("Data Science", ["data analytics", "statistics"]),
    ("DevOps", ["sre", "site reliability"]),
    ("Agile", ["scrum", "kanban"])
  ]

  /** The dictionary's keys: the skills the search interface offers as checkboxes. */
  function SelectableSkills(): (r: seq<string>)
    ensures |r| == |TechSkills|
    ensures forall i :: 0 <= i < |r| ==> r[i] == TechSkills[i].0
  {
    seq(|TechSkills|, i requires 0 <= i < |TechSkills| => TechSkills[i].0)
  }

  // ---------------------------------------------------------------------------
  // Spelling variants
  // ---------------------------------------------------------------------------

  /** `re.sub(r'[.\s]', '', s)`: every dot and whitespace character removed. */
  function Compact(s: string): (r: string)
    ensures |r| <= |s|
  {
    if |s| == 0 then ""
    else (if s[0] == '.' || IsSpace(s[0]) then "" else [s[0]]) + Compact(s[1..])
  }

  /**
   * The compact form holds no dot and no whitespace; a text without either is
   * its own compact form, and a single dot or whitespace character vanishes.
   * With CompactAppend this fixes the compact form as the text with exactly
   * its dots and whitespace removed, every other character kept in order.
   */
  lemma {:induction false} CompactKeepsTheRest(s: string)
    ensures forall i :: 0 <= i < |Compact(s)| ==> Compact(s)[i] != '.' && !IsSpace(Compact(s)[i])
    ensures (forall i :: 0 <= i < |s| ==> s[i] != '.' && !IsSpace(s[i])) ==> Compact(s) == s
    ensures |s| == 1 && (s[0] == '.' || IsSpace(s[0])) ==> Compact(s) == ""
  {
    if |s| > 0 {
      CompactKeepsTheRest(s[1..]);
    }
  }

  /** Removing dots and whitespace works character by character: it distributes over concatenation. */
  lemma {:induction false} CompactAppend(a: string, b: string)
    decreases |a|
    ensures Compact(a + b) == Compact(a) + Compact(b)
  {
    if |a| == 0 {
      assert a + b == b;
    } else {
      assert (a + b)[0] == a[0];
      assert (a + b)[1..] == a[1..] + b;
      CompactAppend(a[1..], b);
    }
  }

  predicate EndsWith(s: string, suffix: string) {
    |suffix| <= |s| && s[|s| - |suffix|..] == suffix
  }

  /**
   * `re.sub(pat + '$', rep, s)` for a literal `pat`: `$` matches at the end of
   * the string or just before a newline that ends it.
   */
  function ReplaceAtEnd(s: string, pat: string, rep: string): string {
    if EndsWith(s, pat) then s[..|s| - |pat|] + rep
    else if EndsWith(s, pat + "\n") then s[..|s| - |pat| - 1] + rep + "\n"
    else s
  }

  /** The variations tried, in order, when the lower-cased name is not found. */
  function Variants(skill: string): seq<string> {
    var low := Lower(skill);
    [low, Upper(skill), Title(skill), Compact(low),
     ReplaceAtEnd(low, ".js", "js"), ReplaceAtEnd(low, "js", ".js")]
  }

  /** The variations that can ever match lower-cased text (see FoundIffEffectiveForm). */
  function EffectiveForms(skill: string): seq<string> {
    var low := Lower(skill);
    [low, Compact(low), ReplaceAtEnd(low, ".js", "js"), ReplaceAtEnd(low, "js", ".js")]
  }

  /** Some form in `forms` occurs as a whole word in `t`. */
  predicate AnyOccurs(forms: seq<string>, t: string) {
    exists i | 0 <= i < |forms| :: Occurs(forms[i], t)
  }

  /** The test the processor applies to one skill: its lower-cased name, or one of its variations. */
  predicate Found(skill: string, text: string) {
    var lt := Lower(text);
    Occurs(Lower(skill), lt) || AnyOccurs(Variants(skill), lt)
  }

  /**
   * The skills `extract_skills` reports for `text`; `None` stands for a value
   * that is not a string, on which lower-casing raises and the handler
   * returns an empty list.
   */
  function ExtractSkills(text: Option<string>): (r: set<string>)
    ensures r <= SkillSet
    ensures text.None? ==> r == {}
  {
    match text
    case None => {}
    case Some(t) => set s | s in SkillSet && Found(s, t)
  }

  predicate NoDuplicates(xs: seq<string>) {
    forall i, j :: 0 <= i < j < |xs| ==> xs[i] != xs[j]
  }

  /** `xs` lists the members of `found`, each exactly once. */
  ghost predicate ListsExactly(xs: seq<string>, found: set<string>) {
    NoDuplicates(xs) && forall s :: s in xs <==> s in found
  }

  /** Searches for each form in turn, stopping at the first whole-word hit. */
  method SearchForms(forms: seq<string>, lt: string) returns (hit: bool)
    ensures hit <==> AnyOccurs(forms, lt)
  {
    hit := false;
    var j := 0;
    while j < |forms| && !hit
      invariant 0 <= j <= |forms|
      invariant hit <==> AnyOccurs(forms[..j], lt)
    {
      hit := Search(forms[j], lt).Some?;
      assert forms[..j + 1] == forms[..j] + [forms[j]];
      j := j + 1;
    }
    assert !hit ==> forms[..j] == forms;
  }

  /**
   * One iteration of the processor's loop: search for the lower-cased name;
   * failing that, search for each variation in turn.
   */
  method SkillFound(skill: string, lt: string) returns (hit: bool)
    ensures hit <==> Occurs(Lower(skill), lt) || AnyOccurs(Variants(skill), lt)
  {
    hit := Search(Lower(skill), lt).Some?;
    if !hit {
      hit := SearchForms(Variants(skill), lt);
    }
  }

  /** The processor's loop over a list of skill names. */
  method ScanSkills(names: seq<string>, text: string) returns (found: set<string>)
    ensures forall s :: s in found <==> s in names && Found(s, text)
  {
    found := {};
    var lt := Lower(text);
    var i := 0;
    while i < |names|
      invariant 0 <= i <= |names|
      invariant forall s :: s in found <==> s in names[..i] && Found(s, text)
    {
      var hit := SkillFound(names[i], lt);
      if hit {
        found := found + {names[i]};
      }
      assert names[..i + 1] == names[..i] + [names[i]];
      i := i + 1;
    }
    assert names[..i] == names;
  }

  /**
   * `extract_skills`: the catalogue skills whose name or a variation occurs as
   * a whole word in the lower-cased text; nothing for a non-string input.
   */
  method ExtractSkillsScan(text: Option<string>) returns (found: set<string>)
    ensures found <= SkillSet
    ensures forall s :: s in found <==> s in SkillSet && text.Some? && Found(s, text.value)
  {
    found := {};
    if text.Some? {
      found := ScanSkills(Catalogue, text.value);
    }
  }

  /** A listing is empty exactly when the set it lists is. */
  lemma ListsExactlyEmpty(xs: seq<string>, found: set<string>)
    requires ListsExactly(xs, found)
    ensures xs == [] <==> found == {}
  {
    if |xs| > 0 {
      assert xs[0] in found;
    }
    if found != {} {
      var s :| s in found;
      assert s in xs;
    }
  }

  /**
   * `list(found_skills)`: the set's members in some order, each once. Python
   * lists a set in hash order, so no particular order is promised.
   */
  method ListSkills(found: set<string>) returns (xs: seq<string>)
    ensures ListsExactly(xs, found)
  {
    xs := [];
    var rest := found;
    while rest != {}
      invariant rest <= found
      invariant NoDuplicates(xs)
      invariant forall s :: s in xs <==> s in found && s !in rest
      decreases |rest|
    {
      var s :| s in rest;
      xs := xs + [s];
      rest := rest - {s};
    }
  }

  /** `extract_skills` as it returns: the list of skills found, each once. */
  method ExtractSkillList(text: Option<string>) returns (xs: seq<string>)
    ensures ListsExactly(xs, ExtractSkills(text))
    ensures text.None? ==> xs == []
  {
    var found := ExtractSkillsScan(text);
    assert found == ExtractSkills(text);
    xs := ListSkills(found);
    ListsExactlyEmpty(xs, found);
  }

  // ---------------------------------------------------------------------------
  // Properties of extraction
  // ---------------------------------------------------------------------------

  /** Anything found in lower-cased text has no upper-case letter. */
  lemma OccursInLoweredHasNoUpper(v: string, text: string)
    requires Occurs(v, Lower(text))
    ensures NoUpper(v)
  {
    var k: nat :| k <= |Lower(text)| && MatchAt(v, Lower(text), k);
    forall i | 0 <= i < |v| ensures !IsUpper(v[i]) {
      assert v[i] == Lower(text)[k + i];
    }
  }

  /**
   * The upper-case and title-case variations add nothing: they can only occur
   * in lower-cased text when the name has no letters, and then they equal the
   * lower-cased name. So a skill is found exactly when its lower-cased name,
   * the name without dots and whitespace, or one of the two `.js` rewrites
   * occurs as a whole word.
   */
  lemma FoundIffEffectiveForm(skill: string, text: string)
    ensures Found(skill, text) <==> AnyOccurs(EffectiveForms(skill), Lower(text))
  {
    var lt := Lower(text);
    var vs, es := Variants(skill), EffectiveForms(skill);
    if Occurs(vs[1], lt) {
      OccursInLoweredHasNoUpper(vs[1], text);
      UpperWithoutCapitals(skill);
      CaseMapsFixLetterless(skill, false);
    }
    if Occurs(vs[2], lt) {
      OccursInLoweredHasNoUpper(vs[2], text);
      TitleWithoutCapitals(skill);
      CaseMapsFixLetterless(skill, false);
    }
    assert Occurs(es[0], lt) ==> Found(skill, text);
    assert Occurs(es[1], lt) ==> Occurs(vs[3], lt);
    assert Occurs(es[2], lt) ==> Occurs(vs[4], lt);
    assert Occurs(es[3], lt) ==> Occurs(vs[5], lt);
  }

  /**
   * A string is reported exactly when it is a catalogue name one of whose
   * effective forms occurs as a whole word in the lower-cased text.
   */
  lemma ExtractSkillsIff(text: string, s: string)
    ensures s in ExtractSkills(Some(text)) <==> s in SkillSet && AnyOccurs(EffectiveForms(s), Lower(text))
  {
    FoundIffEffectiveForm(s, text);
  }

  /** Only the lower-cased text is searched, so the case of the input does not matter. */
  lemma ExtractSkillsIgnoresCase(text: string)
    ensures ExtractSkills(Some(text)) == ExtractSkills(Some(Lower(text)))
  {
    LowerIdempotent(text);
  }

  /** A catalogue name is reported once one of its effective forms is found by `re.search`. */
  lemma ReportedWhenSearchHits(skill: string, text: string, i: nat)
    requires skill in SkillSet && i < 4
    requires Search(EffectiveForms(skill)[i], Lower(text)).Some?
    ensures skill in ExtractSkills(Some(text))
  {
    ExtractSkillsIff(text, skill);
  }

  /** A name is not reported when `re.search` finds none of its effective forms. */
  lemma NotReportedWhenSearchMisses(skill: string, text: string)
    requires forall i | 0 <= i < 4 :: Search(EffectiveForms(skill)[i], Lower(text)).None?
    ensures skill !in ExtractSkills(Some(text))
  {
    ExtractSkillsIff(text, skill);
  }

  /** The effective forms of "Go" are all "go". */
  lemma GoForms()
    ensures EffectiveForms("Go") == ["go", "go", "go", "go"]
  {
    assert Lower("Go") == "go";
    assert Compact("go") == "go";
    assert ReplaceAtEnd("go", ".js", "js") == "go";
    assert ReplaceAtEnd("go", "js", ".js") == "go";
  }

  /** "Go" is a catalogue name. */
  lemma GoInCatalogue()
    ensures "Go" in SkillSet
  {
    assert "Go" in Languages;
  }

  /** Whether "Go" is reported depends only on whole-word occurrences of "go". */
  lemma GoReportedIff(text: string)
    ensures "Go" in ExtractSkills(Some(text)) <==> Occurs("go", Lower(text))
  {
    GoForms();
    GoInCatalogue();
    SingleFormReportedIff("Go", "go", text);
  }

  /** Lower-casing "I code in Go." gives "i code in go.". */
  lemma LowerOfGoSentence()
    ensures Lower("I code in Go.") == "i code in go."
  {
  }

  /** "go" stands as a whole word at position 10 of "i code in go.". */
  lemma GoMatchesInSentence()
    ensures MatchAt("go", "i code in go.", 10)
  {
  }

  /** "Go" is reported for a text where it stands as a word of its own. */
  lemma GoAsWordIsReported()
    ensures "Go" in ExtractSkills(Some("I code in Go."))
  {
    LowerOfGoSentence();
    GoMatchesInSentence();
    GoReportedIff("I code in Go.");
  }

  /** "good" is already lower case and holds no whole-word "go". */
  lemma GoNotFoundInGood()
    ensures Lower("good") == "good" && Search("go", "good").None?
  {
  }

  /** "Go" is not reported for "good", where it is only part of a word. */
  lemma GoInsideWordIsNotReported()
    ensures "Go" !in ExtractSkills(Some("good"))
  {
    GoNotFoundInGood();
    GoReportedIff("good");
    FindFromLeftmost("go", "good", 0);
  }

  /**
   * The effective forms of "C++" are all "c++", which ends in a non-word
   * character: the closing `\b` then depends on what follows the name.
   */
  lemma CppForms()
    ensures EffectiveForms("C++") == ["c++", "c++", "c++", "c++"]
    ensures !IsWordChar("c++"[2])
  {
    assert Lower("C++") == "c++";
    assert Compact("c++") == "c++";
    assert ReplaceAtEnd("c++", ".js", "js") == "c++";
    assert ReplaceAtEnd("c++", "js", ".js") == "c++";
  }

  /** "C++" is a catalogue name and only its lower-cased spelling can be found. */
  lemma CppReportedIff(text: string)
    ensures "C++" in ExtractSkills(Some(text)) <==> Occurs("c++", Lower(text))
  {
    CppForms();
    CppInCatalogue();
    SingleFormReportedIff("C++", "c++", text);
  }

  /** "C++" is a catalogue name. */
  lemma CppInCatalogue()
    ensures "C++" in SkillSet
  {
    assert "C++" in Languages;
  }

  /**
   * "C++" ends in a non-word character, so the closing `\b` needs a word
   * character right after any occurrence.
   */
  lemma CppNeedsWordCharAfter(text: string, k: nat)
    requires MatchAt("c++", Lower(text), k)
    ensures WordAt(Lower(text), k + 3)
  {
    TrailingNonWordNeedsWordAfter("c++", Lower(text), k);
  }

  /** Lower-casing "C++ developer" gives "c++ developer". */
  lemma LowerOfCppDeveloper()
    ensures Lower("C++ developer") == "c++ developer"
  {
  }

  /** "c++ developer" holds no whole-word "c++". */
  lemma CppNotFoundBeforeSpace()
    ensures Search("c++", "c++ developer").None?
  {
  }

  /** "C++ developer" does not report C++: a space after the plus gives no boundary. */
  lemma CppBeforeSpaceIsNotReported()
    ensures "C++" !in ExtractSkills(Some("C++ developer"))
  {
    LowerOfCppDeveloper();
    CppNotFoundBeforeSpace();
    CppReportedIff("C++ developer");
    FindFromLeftmost("c++", "c++ developer", 0);
  }

  /** "C++" lower-cases to "c++", which holds no whole-word "c++". */
  lemma CppNotFoundAlone()
    ensures Lower("C++") == "c++" && Search("c++", "c++").None?
  {
  }

  /** A text that is just "C++" does not report C++: the end of text gives no boundary either. */
  lemma CppAloneIsNotReported()
    ensures "C++" !in ExtractSkills(Some("C++"))
  {
    CppNotFoundAlone();
    CppReportedIff("C++");
    FindFromLeftmost("c++", "c++", 0);
  }

  /** "C++17" lower-cases to "c++17", where "c++" matches at the start. */
  lemma CppMatchesBeforeDigit()
    ensures Lower("C++17") == "c++17" && MatchAt("c++", "c++17", 0)
  {
  }

  /** "C++17" reports C++: the digit after the second plus supplies the closing boundary. */
  lemma CppBeforeDigitIsReported()
    ensures "C++" in ExtractSkills(Some("C++17"))
  {
    CppMatchesBeforeDigit();
    CppReportedIff("C++17");
    assert MatchAt("c++", Lower("C++17"), 0);
  }

  /** "Vue.js" is a catalogue name. */
  lemma VueInCatalogue()
    ensures "Vue.js" in SkillSet
  {
    assert "Vue.js" in WebDevelopment;
  }

  /** Lower-casing "Vue.js" and "vuejs". */
  lemma LowerOfVueSpellings()
    ensures Lower("Vue.js") == "vue.js" && Lower("vuejs") == "vuejs"
  {
  }

  /** The compact form of "vue.js" is "vuejs". */
  lemma VueCompactsToVuejs()
    ensures Compact("vue.js") == "vuejs"
  {
  }

  /** "vuejs" reports Vue.js through the variation without dots. */
  lemma VueWithoutDotIsReported()
    ensures "Vue.js" in ExtractSkills(Some("vuejs"))
  {
    VueInCatalogue();
    LowerOfVueSpellings();
    VueCompactsToVuejs();
    assert EffectiveForms("Vue.js")[1] == "vuejs";
    assert MatchAt("vuejs", "vuejs", 0);
    ExtractSkillsIff("vuejs", "Vue.js");
  }

  /** A name all of whose effective forms coincide is reported exactly when that form occurs. */
  lemma SingleFormReportedIff(skill: string, form: string, text: string)
    requires EffectiveForms(skill) == [form, form, form, form]
    ensures skill in ExtractSkills(Some(text)) <==> skill in SkillSet && Occurs(form, Lower(text))
  {
    ExtractSkillsIff(text, skill);
    var lt := Lower(text);
    assert AnyOccurs(EffectiveForms(skill), lt) <==> Occurs(form, lt) by {
      assert EffectiveForms(skill)[0] == form;
    }
  }

  /** "Python" is a catalogue language, and its alias "python3" is already lower case. */
  lemma PythonIsLanguageWithLowerAlias()
    ensures "Python" in Languages
    ensures Lower("python3") == "python3"
  {
  }

  /** Lower-casing "Python" gives "python". */
  lemma LowerOfPython()
    ensures Lower("Python") == "python"
  {
  }

  /** "python" has no dot or whitespace, so it is its own compact form. */
  lemma PythonIsCompact()
    ensures Compact("python") == "python"
  {
    CompactKeepsTheRest("python");
  }

  /** The effective forms of "Python" are all "python". */
  lemma PythonForms()
    ensures EffectiveForms("Python") == ["python", "python", "python", "python"]
  {
    LowerOfPython();
    PythonIsCompact();
  }

  /** "python3" holds no whole-word "python": the digit after it is a word character. */
  lemma PythonNotFoundInPython3()
    ensures Search("python", "python3").None?
  {
  }

  /**
   * The alias dictionary is not consulted: "python3", listed there as an
   * alias of Python, does not report Python.
   */
  lemma AliasIsNotReported()
    ensures "Python" !in ExtractSkills(Some("python3"))
  {
    PythonIsLanguageWithLowerAlias();
    PythonForms();
    PythonNotFoundInPython3();
    SingleFormReportedIff("Python", "python", "python3");
    FindFromLeftmost("python", "python3", 0);
  }

  // The two selectable skills that are not catalogue names, checked category by category.
  lemma UiOnlyNotInLanguages() ensures "CI/CD" !in Languages && "DevOps" !in Languages {}
  lemma UiOnlyNotInWebDevelopment() ensures "CI/CD" !in WebDevelopment && "DevOps" !in WebDevelopment {}
  lemma UiOnlyNotInDatabases() ensures "CI/CD" !in Databases && "DevOps" !in Databases {}
  lemma UiOnlyNotInCloudAndDevOps() ensures "CI/CD" !in CloudAndDevOps && "DevOps" !in CloudAndDevOps {}
  lemma UiOnlyNotInDataScience() ensures "CI/CD" !in DataScience && "DevOps" !in DataScience {}
  lemma UiOnlyNotInMobile() ensures "CI/CD" !in Mobile && "DevOps" !in Mobile {}
  lemma UiOnlyNotInTesting() ensures "CI/CD" !in Testing && "DevOps" !in Testing {}
  lemma UiOnlyNotInOtherTools() ensures "CI/CD" !in OtherTools && "DevOps" !in OtherTools {}

  /**
   * "CI/CD" and "DevOps" are offered for selection but are not catalogue
   * names, so extraction never reports them, whatever the text.
   */
  lemma UiOnlySkillsNeverExtracted(text: Option<string>)
    ensures "CI/CD" in SelectableSkills() && "DevOps" in SelectableSkills()
    ensures "CI/CD" !in SkillSet && "DevOps" !in SkillSet
    ensures "CI/CD" !in ExtractSkills(text) && "DevOps" !in ExtractSkills(text)
  {
    assert SelectableSkills()[15] == "CI/CD" && SelectableSkills()[18] == "DevOps";
    UiOnlyNotInLanguages();
    UiOnlyNotInWebDevelopment();
    UiOnlyNotInDatabases();
    UiOnlyNotInCloudAndDevOps();
    UiOnlyNotInDataScience();
    UiOnlyNotInMobile();
    UiOnlyNotInTesting();
    UiOnlyNotInOtherTools();
  }
}

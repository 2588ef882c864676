# CV skill matcher — Dafny model

This project models the deterministic core of a résumé (CV) search tool.
The tool reads PDF résumés, extracts the technical skills each one mentions,
and stores the records in a vector database. A web interface then lets a
recruiter tick skills, lists the candidates that hold all of them,
highlights the skills in each candidate's text, and charts how often each
skill occurs.

The model covers:

- **Skill extraction** (`Skills`). The processor holds a fixed catalogue of
  96 skill names in eight categories. It lower-cases the text and reports a
  name when the lower-cased name, or one of its spelling variants, occurs as
  a whole word. "Whole word" means Python's `\b` on both sides, modelled
  exactly in `WordMatch`: there is a boundary at position k when "the
  character before k is a word character" differs from "the character at k
  is a word character", and positions outside the text count as non-word.
- **The alias dictionary** (`Skills.TechSkills`). It is kept as data. Its
  keys are the interface's checkbox list; the extractor never reads it.
- **PDF text assembly** (`PdfText`). The page texts are an input. Each is
  followed by a newline, everything is concatenated, and the result is
  stripped of surrounding whitespace.
- **The two ingestion loops** (`Ingest`):
  - The processor's `process_directory` stores only files with non-empty
    text.
  - The interface's `process_cv_directory` stores every file the store
    accepts, even when its text could not be read, and reports progress
    after each store.
- **The search interface** (`SearchView`):
  - the `ContainsAll` candidate query with its limit;
  - the highlight markup of a candidate's skill list;
  - `highlight_skills`, a case-insensitive whole-word substitution run
    once per skill.
- **The skill distribution** (`Distribution`). Counts are kept in a
  dictionary in first-seen order. The chart sorts them by count, largest
  first, with a stable sort.

Modules, one per file:

- `Wrappers`: `Option`.
- `Chars`: character classes, ASCII case maps, `str.strip` and `str.join`.
- `WordMatch`: `re.search` and `re.sub` for `\b<literal>\b`.
- `Skills`: the catalogue, the variants and extraction.
- `PdfText`: page assembly.
- `Records`: the stored record.
- `Ingest`: the two ingestion loops.
- `SearchView`: the candidate query, the markup and highlighting.
- `Distribution`: counting and ordering.

Behaviour of the code that the model keeps:

- The catalogue has 96 names.
- `process_cv_directory` reports progress only after a file is stored; it
  never reports 1.0 on its own. When the last file fails, progress stays
  below the total.
- `process_cv_directory` returns only the number of discovered files.
- Extraction uses whole-word search, so "Go" is not found in "good"
  (`Skills.GoInsideWordIsNotReported`).
- The processor stores records under the class "CV". The interface stores
  and reads them under "Resume". The model uses one record type for both.
- Before storing, `process_cv_directory` asks the processor to clear the
  store, and the processor deletes only "CV" objects
  (app/gui/app.py:183-189, app/processor/processor.py:310-324). The
  interface's "Resume" records from earlier runs therefore stay in the
  store. `Ingest.ProcessCvDirectory` returns the records one run adds.
- The two loops report progress differently:
  - `process_directory` reports `i / n` before file `i` is handled. This
    float progress is not modelled.
  - `process_cv_directory` reports `(i + 1) / n` after file `i` is stored.
    This is modelled as the numerator `i + 1`.

## Model

| member | source | states |
|---|---|---|
| Chars.Lower | app/processor/processor.py:186 | lower-casing keeps the length and maps each character to its lower-case form, position by position |
| Chars.LowerIdempotent | app/processor/processor.py:186 | the lower-cased text has no capital letter, and lower-casing twice is lower-casing once |
| Chars.Upper | app/processor/processor.py:200 | upper-casing keeps the length and maps each character to its upper-case form, position by position |
| Chars.TitleFrom | app/processor/processor.py:201 | `str.title()` from a given position keeps the length of the text; `Chars.TitleWithoutCapitals` states what its capitalisation implies |
| Chars.Title | app/processor/processor.py:201 | title case from the start of the text; `Chars.TitleWithoutCapitals` states what it can match |
| Chars.UpperWithoutCapitals | app/processor/processor.py:200 | an upper-cased name without capitals had no letters at all |
| Chars.TitleWithoutCapitals | app/processor/processor.py:201 | a title-cased name without capitals had no letters at all |
| Chars.Strip | app/processor/processor.py:145 | the strip of `s` is a slice of `s` with only whitespace outside it and no whitespace at either end |
| Chars.StripUnique | app/processor/processor.py:145 | any slice with only whitespace around it and none at its ends is the strip, so the strip is determined |
| Chars.StripAllSpace | app/processor/processor.py:145 | a text of whitespace strips to the empty text |
| Chars.StripIgnoresTrailingSpace | app/processor/processor.py:144-145 | whitespace appended to a text does not change its strip |
| WordMatch.Search | app/processor/processor.py:192-193 | `re.search(r'\b' + re.escape(p) + r'\b', t)` finds a match exactly when the literal occurs with a word boundary on both sides, and the match it returns is the leftmost |
| WordMatch.FindFromLeftmost | app/processor/processor.py:192-193 | scanning from a position returns a whole-word match and no earlier one, or nothing when there is none |
| WordMatch.TrailingNonWordNeedsWordAfter | app/processor/processor.py:192-193 | a literal ending in a non-word character matches only where a word character follows it |
| WordMatch.LeadingWordNeedsNonWordBefore | app/processor/processor.py:192-193 | a literal starting with a word character matches only where no word character precedes it |
| WordMatch.LowerKeepsBoundaries | app/gui/app.py:196 | lower-casing the text moves no word boundary, so IGNORECASE matching can compare lower-cased texts |
| WordMatch.IgnoreCaseSpan | app/gui/app.py:196 | a case-insensitive match is a span equal to the literal after lower-casing both, with a word boundary at each end of the span in the original text |
| WordMatch.SubFrom | app/gui/app.py:197 | `pattern.sub` from a position; what it yields is stated by `WordMatch.SubFromLeftmost` |
| WordMatch.Substitute | app/gui/app.py:197 | `pattern.sub` over the whole text; stated by `WordMatch.SubstituteLeftmost` and `WordMatch.SubstituteWithoutMatch` |
| WordMatch.SubFromLeftmost | app/gui/app.py:195-197 | case-insensitive substitution copies the text up to the leftmost whole-word match, emits the replacement, and continues after the match, so matches do not overlap |
| WordMatch.SubstituteLeftmost | app/gui/app.py:195-197 | from the start of the text, the first match replaced is the one `re.search` finds: the text before it is copied and substitution resumes after it |
| WordMatch.SubstituteWithoutMatch | app/gui/app.py:195-197 | with no case-insensitive whole-word occurrence the text is returned unchanged |
| Skills.SelectableSkills | app/gui/app.py:61 | the checkbox list is the alias dictionary's keys in insertion order |
| Skills.CompactKeepsTheRest | app/processor/processor.py:202 | the compact variant holds no dot and no whitespace; a name without either is its own compact variant; a lone dot or whitespace character vanishes |
| Skills.CompactAppend | app/processor/processor.py:202 | removing dots and whitespace works character by character: the compact form of a concatenation is the concatenation of the compact forms |
| Skills.Compact | app/processor/processor.py:202 | `re.sub(r'[.\s]', '', …)` never lengthens the text; its meaning is stated by `Skills.CompactKeepsTheRest` and `Skills.CompactAppend` |
| Skills.ReplaceAtEnd | app/processor/processor.py:203-204 | `re.sub(pat + '$', rep, …)` rewrites a final `pat`, or one just before a final newline; used by the two `.js` variants |
| Skills.Variants | app/processor/processor.py:198-205 | the six variations, in order; `Skills.FoundIffEffectiveForm` shows only four can match |
| Skills.EffectiveForms | app/processor/processor.py:198-205 | the four variations that can match lower-cased text: the lower-cased name, its compact form and the two `.js` rewrites |
| Skills.Found | app/processor/processor.py:190-211 | the test for one name: the lower-cased name or a variation occurs as a whole word; `Skills.FoundIffEffectiveForm` restates it over the effective forms |
| Skills.ExtractSkills | app/processor/processor.py:150-218 | every reported skill is a catalogue name; a non-string input, on which lower-casing raises, gives nothing |
| Skills.SearchForms | app/processor/processor.py:207-211 | the loop over the variants reports a hit exactly when some variant occurs as a whole word |
| Skills.SkillFound | app/processor/processor.py:190-211 | one skill is found when its lower-cased name or one of its variants occurs as a whole word |
| Skills.ScanSkills | app/processor/processor.py:189-211 | the loop over the names collects exactly the names that are found |
| Skills.ExtractSkillsScan | app/processor/processor.py:185-211 | the loop reports exactly the catalogue names found in the text, and nothing for a non-string input |
| Skills.ListSkills | app/processor/processor.py:214 | `list(found_skills)` lists each member of the set exactly once |
| Skills.ExtractSkillList | app/processor/processor.py:150-218 | the returned list holds each extracted skill once, and is empty for a non-string input |
| Skills.ListsExactlyEmpty | app/processor/processor.py:214 | a listing of a set is empty exactly when the set is |
| Skills.FoundIffEffectiveForm | app/processor/processor.py:198-205 | the upper-case and title-case variants add nothing: a skill is found exactly when its lower-cased name, its compact form or one of the `.js` rewrites occurs as a whole word |
| Skills.ExtractSkillsIff | app/processor/processor.py:189-211 | a string is reported exactly when it is a catalogue name one of whose effective forms occurs as a whole word in the lower-cased text |
| Skills.ExtractSkillsIgnoresCase | app/processor/processor.py:186 | extraction from a text and from its lower-cased copy agree |
| Skills.ReportedWhenSearchHits | app/processor/processor.py:192-196 | a catalogue name is reported once `re.search` finds one of its forms |
| Skills.NotReportedWhenSearchMisses | app/processor/processor.py:192-211 | a name is not reported when `re.search` finds none of its forms |
| Skills.GoReportedIff | app/processor/processor.py:189-211 | "Go" is reported exactly when "go" occurs as a whole word in the lower-cased text |
| Skills.GoAsWordIsReported | app/processor/processor.py:192-194 | "Go" is reported for "I code in Go." |
| Skills.GoInsideWordIsNotReported | app/processor/processor.py:192-194 | "Go" is not reported for "good" |
| Skills.CppReportedIff | app/processor/processor.py:192-211 | "C++" is reported exactly when "c++" occurs as a whole word in the lower-cased text |
| Skills.CppForms | app/processor/processor.py:198-205 | every effective form of "C++" is "c++", whose last character is not a word character |
| Skills.CppNeedsWordCharAfter | app/processor/processor.py:192-193 | every whole-word occurrence of "c++" is followed by a word character |
| Skills.CppBeforeSpaceIsNotReported | app/processor/processor.py:192-193 | "C++ developer" does not report C++ |
| Skills.CppAloneIsNotReported | app/processor/processor.py:192-193 | a text that is just "C++" does not report C++ |
| Skills.CppBeforeDigitIsReported | app/processor/processor.py:192-193 | "C++17" reports C++ |
| Skills.VueWithoutDotIsReported | app/processor/processor.py:202 | "vuejs" reports Vue.js through the variant without dots |
| Skills.SingleFormReportedIff | app/processor/processor.py:189-211 | a name whose forms all coincide is reported exactly when that form occurs |
| Skills.AliasIsNotReported | app/processor/processor.py:38-59 | "python3", an alias of Python in the dictionary, does not report Python |
| Skills.UiOnlySkillsNeverExtracted | app/processor/processor.py:154-183 | "CI/CD" and "DevOps" are selectable but are not catalogue names, so no text reports them |
| PdfText.ExtractText | app/processor/processor.py:137-148 | the text is absent exactly when reading failed, and otherwise has no surrounding whitespace |
| PdfText.ConcatPages | app/processor/processor.py:142-144 | each page followed by a newline, so a non-empty document ends in a newline; `PdfText.ConcatIsJoinThenNewline` relates it to a join |
| PdfText.ConcatIsJoinThenNewline | app/processor/processor.py:142-144 | appending a newline to each page is joining the pages with newlines plus one final newline |
| PdfText.ExtractTextIsStrippedJoin | app/processor/processor.py:142-146 | the text is the pages joined with newlines, stripped |
| PdfText.NoPagesGiveEmptyText | app/processor/processor.py:142-146 | a document without pages gives the empty text |
| PdfText.SingleStrippedPageRoundTrips | app/processor/processor.py:142-146 | a single page without surrounding whitespace comes back unchanged |
| PdfText.BlankPageHasNoText | app/processor/processor.py:142-146 | a single page of whitespace gives the empty text |
| Ingest.Basename | app/processor/processor.py:264 | the base name is the longest slash-free suffix of the path |
| Ingest.KeptText | app/processor/processor.py:250-253 | a file's text is kept exactly when it was read and is not empty |
| Ingest.ProcessorRecord | app/processor/processor.py:257-265 | the record built for a kept file is named by the file's base name, holds its text, and lists each skill found in the text once |
| Ingest.ProcessDirectory | app/processor/processor.py:220-280 | with no files the store is left alone; otherwise it is cleared, and the stored records are, in order, those of the files with kept text that the store accepts, each named by the file's base name and listing the skills found in its text |
| Ingest.StoredFilesStep | app/processor/processor.py:241-276 | handling one more file appends its record exactly when the file is stored, and otherwise changes nothing |
| Ingest.ProcessorRecordsAt | app/processor/processor.py:241-276 | each stored record belongs to the kept file at the same position |
| Ingest.StoredFilesAppend | app/processor/processor.py:241-280 | files are handled independently and in order: storing distributes over a split of the file list |
| Ingest.StoredFilesIff | app/processor/processor.py:250-276 | a file is stored exactly when it was discovered, its text is not empty and the store accepts it |
| Ingest.StoredFiles | app/processor/processor.py:241-276 | the files whose records are stored, in order; `Ingest.StoredFilesIff` and `Ingest.StoredFilesAppend` state which and in what order |
| Ingest.BlankFileIsSkipped | app/processor/processor.py:251-253 | a file whose only page is whitespace is skipped, whatever the store would answer |
| Ingest.UnreadableFileIsSkipped | app/processor/processor.py:251-253 | an unreadable file is skipped |
| Ingest.InterfaceRecord | app/gui/app.py:151-160 | the record built for a file is named by its relative path, holds the extracted text even when extraction failed, and lists each skill found once |
| Ingest.StoreFile | app/gui/app.py:150-170 | one file: when the store accepts its record, the record is stored and `i + 1` reported; otherwise nothing is stored or reported |
| Ingest.ProcessCvDirectory | app/gui/app.py:134-177 | returns the number of discovered files; reports the progress numerator `i + 1` for each accepted file `i`, in order; stores one record per report, each the record of the file whose numerator it shares |
| Ingest.ProgressNumeratorsCorrect | app/gui/app.py:150-170 | the numerators stay between 1 and the total, strictly increase, and include `i + 1` exactly when file `i` was stored |
| Ingest.ProgressNumerators | app/gui/app.py:169-170 | at most one numerator per file; `Ingest.ProgressNumeratorsCorrect` states which |
| Ingest.InterfaceRecordsAll | app/gui/app.py:150-170 | each stored record belongs to the file whose progress numerator it shares |
| Ingest.UnreadableFileHasNoSkills | app/gui/app.py:151-153 | a file whose text could not be read is stored with no text and no skills |
| Ingest.InterfaceRecordSkillsInCatalogue | app/gui/app.py:153 | every stored skill is a catalogue name |
| SearchView.Matching | app/gui/app.py:72-76 | the filter keeps exactly the stored records that hold every selected skill |
| SearchView.FindBestCandidates | app/gui/app.py:63-88 | an empty selection or a failed query gives nothing; otherwise the result is the first `limit` matching records, all of them when fewer match |
| SearchView.InterfaceShowsAtMostFive | app/gui/app.py:453 | the interface calls the query without a limit, so at most five candidates are shown, and five whenever five or more records match |
| SearchView.CandidatesHoldAllSelected | app/gui/app.py:72-76 | every candidate is a stored record holding every selected skill |
| SearchView.CandidatesCompleteUnderLimit | app/gui/app.py:72-78 | when no more records match than the limit allows, every matching record is returned |
| SearchView.NoMatchingRecord | app/gui/app.py:72-76 | when no record holds every selected skill, the query returns nothing |
| SearchView.UiOnlySelectionFindsNothing | app/gui/app.py:63-88 | over records whose skills are catalogue names, selecting "CI/CD" or "DevOps" finds no candidate |
| SearchView.Span | app/gui/app.py:473 | the markup is the fixed opening tag, the skill's name and the closing tag |
| SearchView.SpanInjective | app/gui/app.py:473 | different skills get different markup |
| SearchView.MarkSkills | app/gui/app.py:470-476 | the list keeps length and order, and an entry is wrapped in the markup exactly when it is selected |
| SearchView.SkillsLine | app/gui/app.py:468-476 | the skills line starts with the bold label, and with nothing selected it is the candidate's skills joined with commas |
| SearchView.SkillsLineOne | app/gui/app.py:470-476 | a one-skill line is the label followed by the skill, wrapped in the markup exactly when it is selected |
| SearchView.SkillsLineAppend | app/gui/app.py:470-476 | each further skill adds ", " and its entry, wrapped exactly when selected, so together with SkillsLineOne the line is fixed for every non-empty list and every selection |
| SearchView.NothingSelectedMarksNothing | app/gui/app.py:470-476 | with nothing selected the skill list is shown unchanged |
| SearchView.MarkupRoundTrip | app/gui/app.py:470-476 | removing the markup from an entry gives back the candidate's skill |
| SearchView.HighlightOne | app/gui/app.py:193-197 | highlighting one skill is one case-insensitive whole-word substitution of the markup |
| SearchView.HighlightAppend | app/gui/app.py:193-198 | highlighting is a left-to-right fold: later skills apply to the text the earlier ones produced |
| SearchView.HighlightSkills | app/gui/app.py:191-198 | the highlighted text; stated by `SearchView.HighlightOne`, `SearchView.HighlightAppend`, `SearchView.HighlightLeftmost` and `SearchView.HighlightWithoutOccurrence` |
| SearchView.HighlightWithoutOccurrence | app/gui/app.py:191-198 | a text in which no skill occurs as a whole word, in any case, is returned unchanged |
| SearchView.HighlightLeftmost | app/gui/app.py:195-197 | for one skill, the text before the leftmost occurrence is kept, the occurrence becomes the markup around the skill's own spelling, and highlighting resumes after it |
| SearchView.HighlightUsesSkillSpelling | app/gui/app.py:197 | "GO" in the text is shown as the markup around "Go" |
| Distribution.Bump | app/gui/app.py:107 | one increment adds at most one key |
| Distribution.BumpKeys | app/gui/app.py:107 | incrementing keeps the keys in place and appends a new key at the end |
| Distribution.BumpCount | app/gui/app.py:107 | incrementing adds one to the skill's count and leaves the others alone |
| Distribution.GetSkillDistribution | app/gui/app.py:90-113 | a failed query, or one that raises, gives an empty dictionary; otherwise each skill's count is its number of occurrences across the records' skill lists, keys are distinct, every count is at least one, and the counts add up to the number of skill entries |
| Distribution.TallyKeys | app/gui/app.py:103-107 | the keys are the distinct skills in the order they are first met |
| Distribution.TallyCountOf | app/gui/app.py:103-107 | each skill's count is its number of occurrences |
| Distribution.TallyTotal | app/gui/app.py:103-107 | every count is at least one, and the counts add up to the number of entries counted |
| Distribution.Tally | app/gui/app.py:103-107 | the counting loop as a dictionary in insertion order; stated by `Distribution.TallyKeys`, `Distribution.TallyCountOf` and `Distribution.TallyTotal` |
| Distribution.FirstSeenMembers | app/gui/app.py:103-107 | exactly the skills that occur get a key |
| Distribution.CountIsNumberOfRecords | app/gui/app.py:104-107 | when no skill list repeats a skill, a skill's count is the number of records that list it |
| Distribution.InsertMultiset | app/gui/app.py:501 | insertion adds exactly the new entry |
| Distribution.InsertSorted | app/gui/app.py:501 | inserting into a list sorted by count keeps it sorted |
| Distribution.InsertWithCount | app/gui/app.py:501 | insertion places the new entry after every entry with the same count |
| Distribution.Insert | app/gui/app.py:501 | insertion adds one entry; stated by `Distribution.InsertMultiset`, `Distribution.InsertSorted` and `Distribution.InsertWithCount` |
| Distribution.SortByCount | app/gui/app.py:501 | `sorted(…, key=count, reverse=True)` keeps the number of entries; stated by `Distribution.SortByCountCorrect` |
| Distribution.SortByCountCorrect | app/gui/app.py:501 | the sort is by count, largest first, is a permutation, and keeps entries with equal counts in dictionary order |
| Distribution.SortByCountSorted | app/gui/app.py:501 | the sorted list has counts that never increase |
| Distribution.SortByCountPermutes | app/gui/app.py:501 | the sorted list holds the same entries as the dictionary |
| Distribution.SortByCountStable | app/gui/app.py:501 | for each count, the entries with that count keep their dictionary order |
| Distribution.SortedKeysDistinct | app/gui/app.py:501 | sorting a dictionary's items keeps the keys distinct |
| Distribution.Chart | app/gui/app.py:501-503 | the chart's labels and values are parallel lists, one per dictionary item |
| Distribution.ChartOfRecords | app/gui/app.py:501-503 | each skill that occurs gets exactly one bar; the values never increase along the chart; each bar's value is its skill's number of occurrences and at least one |

## Left out

- PDF parsing with PyPDF2. Each file's page texts are an input, `None` when
  the file cannot be opened or parsed.
- The vector store as a service: schema creation, `clear_database`, object
  creation, queries, counting and connection checks. A failed store write is
  the `storeAccepts` flag. A query result is a sequence of records, `None`
  when the query fails or its answer lacks the expected keys. The model
  assumes the store returns matching records in stored order; the store
  promises no order.
- The check after `process_directory` that queries the stored file names.
  It only writes log lines.
- Directory listing (`glob`, relative paths), file reads, download links,
  the Streamlit layout, the chart drawing and all logging.
- The float progress of `process_directory` and its final call with 1.0.
- The error path of `process_cv_directory` that returns 0 when listing the
  directory raises. Directory listing is I/O.
- Unicode case mapping and Unicode `\w`. Case maps and word characters are
  ASCII only; whitespace is the full set that Python's `str.isspace`
  accepts.
- The escape processing `re.sub` applies to a replacement string. The
  markup and the selectable skills (the alias dictionary's keys, which are
  what `highlight_skills` receives) contain no backslash, so it never applies.
- The order of `list(found_skills)`. Python lists a set in hash order.
  `Skills.ListSkills` promises each member once and no particular order.
- Skills.ExtractSkills: no lemma evaluates the compact variant of longer
  names such as "Machine Learning" or "Node.js" on a concrete text. The
  general property is `Skills.FoundIffEffectiveForm`, and
  `Skills.VueWithoutDotIsReported` is the worked instance.

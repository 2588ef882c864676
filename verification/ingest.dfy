/**
 * The two ingestion loops: the processor's `process_directory`, which skips
 * files without text, and the search interface's `process_cv_directory`,
 * which stores every file it can and reports progress after each store.
 *
 * Directory listing, PDF parsing and the store are not modelled: each file
 * arrives with its page texts (`None` when it cannot be read) and a flag
 * saying whether the store accepts the record built from it.
 */
module Ingest {
  import opened Wrappers
  import opened Chars
  import opened Skills
  import opened PdfText
  import opened Records

  /** A discovered PDF: its path relative to the scanned directory, its pages, and the store's answer. */
  datatype PdfFile = PdfFile(path: string, pages: Option<seq<string>>, storeAccepts: bool)

  /** `os.path.basename`: the part of the path after its last slash. */
  function Basename(path: string): (r: string)
    ensures |r| <= |path| && r == path[|path| - |r|..]
    ensures '/' !in r
    ensures |r| < |path| ==> path[|path| - |r| - 1] == '/'
  {
    if |path| == 0 || path[|path| - 1] == '/' then ""
    else
      var init := path[..|path| - 1];
      var b := Basename(init);
      assert path[|path| - |b| - 1..] == init[|init| - |b|..] + [path[|path| - 1]];
      b + [path[|path| - 1]]
  }

  // ---------------------------------------------------------------------------
  // process_directory
  // ---------------------------------------------------------------------------

  /** The text `process_directory` keeps for a file: the extracted text, unless it is missing or empty. */
  function KeptText(f: PdfFile): (r: Option<string>)
    ensures r.Some? <==> ExtractText(f.pages).Some? && |ExtractText(f.pages).value| > 0
    ensures r.Some? ==> r == ExtractText(f.pages)
  {
    match ExtractText(f.pages)
    case None => None
    case Some(t) => if |t| > 0 then Some(t) else None
  }

  /** `process_directory` stores a file when it keeps its text and the store accepts the record. */
  predicate Stores(f: PdfFile) { KeptText(f).Some? && f.storeAccepts }

  /** The files whose records `process_directory` stores, in discovery order. */
  function StoredFiles(files: seq<PdfFile>): (r: seq<PdfFile>)
    ensures |r| <= |files|
  {
    if |files| == 0 then []
    else
      var last := files[|files| - 1];
      StoredFiles(files[..|files| - 1]) + (if Stores(last) then [last] else [])
  }

  /**
   * The record stored for a kept file: named by the file's base name, holding
   * its text and the skills found in it.
   */
  ghost predicate IsProcessorRecord(x: Resume, f: PdfFile) {
    && KeptText(f).Some?
    && x.filename == Basename(f.path)
    && x.content == KeptText(f)
    && ListsExactly(x.skills, ExtractSkills(x.content))
  }

  /** Builds the record `process_directory` stores for a file whose text it keeps. */
  method ProcessorRecord(f: PdfFile) returns (x: Resume)
    requires KeptText(f).Some?
    ensures IsProcessorRecord(x, f)
  {
    var text := KeptText(f);
    var skills := ExtractSkillList(text);
    x := Resume(Basename(f.path), text, skills);
  }

  /**
   * `process_directory`: with no PDF files it returns at once and leaves the
   * store alone; otherwise it clears the store, then for each file in turn
   * stores its record when the text is not empty and the store accepts it,
   * skipping the file otherwise.
   */
  method ProcessDirectory(files: seq<PdfFile>) returns (cleared: bool, stored: seq<Resume>)
    ensures cleared <==> |files| > 0
    ensures |stored| == |StoredFiles(files)|
    ensures forall j :: 0 <= j < |stored| ==> IsProcessorRecord(stored[j], StoredFiles(files)[j])
  {
    cleared := false;
    stored := [];
    if |files| == 0 {
      return;
    }
    cleared := true;
    var i := 0;
    while i < |files|
      invariant 0 <= i <= |files|
      invariant ProcessorRecords(stored, StoredFiles(files[..i]))
    {
      var f := files[i];
      ghost var kept := StoredFiles(files[..i]);
      StoredFilesStep(files, i);
      if KeptText(f).Some? {
        var x := ProcessorRecord(f);
        if f.storeAccepts {
          ProcessorRecordsAppend(stored, kept, x, f);
          stored := stored + [x];
        }
      }
      assert ProcessorRecords(stored, StoredFiles(files[..i + 1]));
      i := i + 1;
    }
    assert files[..i] == files;
    forall j | 0 <= j < |stored| ensures IsProcessorRecord(stored[j], StoredFiles(files)[j]) {
      ProcessorRecordsAt(stored, StoredFiles(files), j);
    }
  }

  /** `stored` holds, position by position, the records of the files in `kept`. */
  ghost predicate ProcessorRecords(stored: seq<Resume>, kept: seq<PdfFile>)
    decreases |stored|
  {
    && |stored| == |kept|
    && (|stored| > 0 ==>
          && ProcessorRecords(stored[..|stored| - 1], kept[..|kept| - 1])
          && IsProcessorRecord(stored[|stored| - 1], kept[|kept| - 1]))
  }

  lemma ProcessorRecordsAppend(stored: seq<Resume>, kept: seq<PdfFile>, x: Resume, f: PdfFile)
    requires ProcessorRecords(stored, kept) && IsProcessorRecord(x, f)
    ensures ProcessorRecords(stored + [x], kept + [f])
  {
    var s2, k2 := stored + [x], kept + [f];
    assert s2[..|s2| - 1] == stored && k2[..|k2| - 1] == kept;
    assert s2[|s2| - 1] == x && k2[|k2| - 1] == f;
  }

  /** Each position of matching record and file lists pairs a record with its file. */
  lemma {:induction false} ProcessorRecordsAt(stored: seq<Resume>, kept: seq<PdfFile>, j: nat)
    requires ProcessorRecords(stored, kept) && j < |stored|
    decreases |stored|
    ensures IsProcessorRecord(stored[j], kept[j])
  {
    if j < |stored| - 1 {
      ProcessorRecordsAt(stored[..|stored| - 1], kept[..|kept| - 1], j);
    }
  }

  /** One more file: its record is appended when it is stored. */
  lemma StoredFilesStep(files: seq<PdfFile>, i: nat)
    requires i < |files|
    ensures Stores(files[i]) ==> StoredFiles(files[..i + 1]) == StoredFiles(files[..i]) + [files[i]]
    ensures !Stores(files[i]) ==> StoredFiles(files[..i + 1]) == StoredFiles(files[..i])
  {
    assert files[..i + 1][..i] == files[..i];
  }

  /** Files are handled independently and in order: storing distributes over a split of the list. */
  lemma {:induction false} StoredFilesAppend(a: seq<PdfFile>, b: seq<PdfFile>)
    decreases |b|
    ensures StoredFiles(a + b) == StoredFiles(a) + StoredFiles(b)
  {
    if |b| == 0 {
      assert a + b == a;
    } else {
      var b0 := b[..|b| - 1];
      assert (a + b)[..|a + b| - 1] == a + b0;
      StoredFilesAppend(a, b0);
    }
  }

  /** A file's record is stored exactly when the file is among those discovered and it passes the rule. */
  lemma {:induction false} StoredFilesIff(files: seq<PdfFile>, f: PdfFile)
    ensures f in StoredFiles(files) <==> f in files && Stores(f)
  {
    if |files| > 0 {
      var init := files[..|files| - 1];
      StoredFilesIff(init, f);
      assert files == init + [files[|files| - 1]];
    }
  }

  /** A file whose pages yield only whitespace is skipped, whatever the store would say. */
  lemma BlankFileIsSkipped(path: string, page: string, accepts: bool)
    requires AllSpace(page)
    ensures StoredFiles([PdfFile(path, Some([page]), accepts)]) == []
  {
    var f := PdfFile(path, Some([page]), accepts);
    BlankPageHasNoText(page);
    assert !Stores(f);
    assert [f][..0] == [];
  }

  /** An unreadable file is skipped. */
  lemma UnreadableFileIsSkipped(path: string, accepts: bool)
    ensures StoredFiles([PdfFile(path, None, accepts)]) == []
  {
  }

  // ---------------------------------------------------------------------------
  // process_cv_directory
  // ---------------------------------------------------------------------------

  /**
   * The record `process_cv_directory` stores for a file: named by its relative
   * path, with the extracted text even when extraction failed, and the skills
   * found in it.
   */
  ghost predicate IsInterfaceRecord(x: Resume, f: PdfFile) {
    && x.filename == f.path
    && x.content == ExtractText(f.pages)
    && ListsExactly(x.skills, ExtractSkills(x.content))
  }

  /** Builds the record `process_cv_directory` stores for one file. */
  method InterfaceRecord(f: PdfFile) returns (x: Resume)
    ensures IsInterfaceRecord(x, f)
  {
    var text := ExtractText(f.pages);
    var skills := ExtractSkillList(text);
    x := Resume(f.path, text, skills);
  }

  /** A file whose text could not be extracted is stored with no skills. */
  lemma UnreadableFileHasNoSkills(x: Resume, f: PdfFile)
    requires IsInterfaceRecord(x, f) && f.pages.None?
    ensures x.content.None? && x.skills == []
  {
    ListsExactlyEmpty(x.skills, ExtractSkills(x.content));
  }

  /** Stored skills are catalogue names. */
  lemma InterfaceRecordSkillsInCatalogue(x: Resume, f: PdfFile)
    requires IsInterfaceRecord(x, f)
    ensures forall s :: s in x.skills ==> s in SkillSet
  {
  }

  /**
   * The progress numerators `process_cv_directory` reports: `i + 1` for each
   * file `i` the store accepts, in order.
   */
  function ProgressNumerators(files: seq<PdfFile>): (r: seq<nat>)
    ensures |r| <= |files|
  {
    if |files| == 0 then []
    else
      var n := |files|;
      ProgressNumerators(files[..n - 1]) + (if files[n - 1].storeAccepts then [n] else [])
  }

  /**
   * The numerators lie between 1 and the number of files, increase strictly,
   * and include `i + 1` exactly when file `i` was stored: progress moves only
   * forward, and a refused file reports nothing.
   */
  lemma {:induction false} ProgressNumeratorsCorrect(files: seq<PdfFile>)
    ensures var r := ProgressNumerators(files);
      && (forall j :: 0 <= j < |r| ==> 1 <= r[j] <= |files|)
      && (forall j, k :: 0 <= j < k < |r| ==> r[j] < r[k])
      && (forall i :: 0 <= i < |files| ==> (i + 1 in r <==> files[i].storeAccepts))
  {
    if |files| > 0 {
      var n := |files|;
      var init := files[..n - 1];
      ProgressNumeratorsCorrect(init);
      var prev := ProgressNumerators(init);
      var r := ProgressNumerators(files);
      if files[n - 1].storeAccepts {
        assert r == prev + [n];
        assert forall i :: 0 <= i < n - 1 ==> files[i] == init[i] && (i + 1 in r <==> i + 1 in prev);
      } else {
        assert r == prev;
        assert forall i :: 0 <= i < n - 1 ==> files[i] == init[i];
      }
    }
  }

  /**
   * `process_cv_directory`: it returns the number of discovered files, however
   * many of them fail; it stores the record of every file the store accepts,
   * in order; and after storing file `i` (counting from zero) it reports
   * progress `(i + 1) / count`, kept here as the numerator `i + 1`. A file the
   * store refuses reports no progress. `stored` holds the records this call
   * adds: the clearing it asks for first removes records of another class, so
   * records from earlier calls stay in the store.
   */
  method ProcessCvDirectory(files: seq<PdfFile>) returns (count: nat, stored: seq<Resume>, progress: seq<nat>)
    ensures count == |files|
    ensures progress == ProgressNumerators(files)
    ensures |stored| == |progress|
    ensures forall j :: 0 <= j < |stored| ==> 1 <= progress[j] <= count
    ensures forall j :: 0 <= j < |stored| ==> IsInterfaceRecord(stored[j], files[progress[j] - 1])
  {
    count := |files|;
    stored := [];
    progress := [];
    if count == 0 {
      return;
    }
    var i := 0;
    while i < |files|
      invariant 0 <= i <= |files|
      invariant progress == ProgressNumerators(files[..i])
      invariant InterfaceRecords(stored, files, progress)
    {
      assert files[..i + 1][..i] == files[..i];
      stored, progress := StoreFile(files, i, stored, progress);
      i := i + 1;
    }
    assert files[..i] == files;
    InterfaceRecordsAll(stored, files, progress);
  }

  /**
   * One turn of the loop of `process_cv_directory`: the record of file `i` is
   * built, and when the store accepts it, it is stored and `i + 1` reported.
   */
  method StoreFile(files: seq<PdfFile>, i: nat, stored: seq<Resume>, progress: seq<nat>)
    returns (stored': seq<Resume>, progress': seq<nat>)
    requires i < |files| && InterfaceRecords(stored, files, progress)
    ensures progress' == progress + (if files[i].storeAccepts then [i + 1] else [])
    ensures InterfaceRecords(stored', files, progress')
    ensures KeepsStored(stored', stored, files[i].storeAccepts)
  {
    var x := InterfaceRecord(files[i]);
    stored', progress' := stored, progress;
    if files[i].storeAccepts {
      InterfaceRecordsAppend(stored, files, progress, x, i);
      stored', progress' := stored + [x], progress + [i + 1];
      assert stored'[..|stored|] == stored;
    }
  }

  /**
   * One turn of the loop leaves the records already stored in place, and adds
   * one only when the store accepted it.
   */
  predicate KeepsStored(stored': seq<Resume>, stored: seq<Resume>, accepted: bool) {
    && |stored'| == |stored| + (if accepted then 1 else 0)
    && stored'[..|stored|] == stored
  }

  /** `stored[j]` is the record of the file whose progress numerator is `progress[j]`. */
  ghost predicate InterfaceRecords(stored: seq<Resume>, files: seq<PdfFile>, progress: seq<nat>)
    decreases |stored|
  {
    && |stored| == |progress|
    && (|stored| > 0 ==>
          var n := progress[|progress| - 1];
          && InterfaceRecords(stored[..|stored| - 1], files, progress[..|progress| - 1])
          && 1 <= n <= |files|
          && IsInterfaceRecord(stored[|stored| - 1], files[n - 1]))
  }

  lemma InterfaceRecordsAppend(stored: seq<Resume>, files: seq<PdfFile>, progress: seq<nat>, x: Resume, i: nat)
    requires InterfaceRecords(stored, files, progress)
    requires i < |files| && IsInterfaceRecord(x, files[i])
    ensures InterfaceRecords(stored + [x], files, progress + [i + 1])
  {
    var s2, p2 := stored + [x], progress + [i + 1];
    assert s2[..|s2| - 1] == stored && p2[..|p2| - 1] == progress;
    assert s2[|s2| - 1] == x && p2[|p2| - 1] == i + 1;
  }

  lemma InterfaceRecordsAll(stored: seq<Resume>, files: seq<PdfFile>, progress: seq<nat>)
    requires InterfaceRecords(stored, files, progress)
    ensures forall j :: 0 <= j < |stored| ==> 1 <= progress[j] <= |files|
    ensures forall j :: 0 <= j < |stored| ==> IsInterfaceRecord(stored[j], files[progress[j] - 1])
  {
    forall j | 0 <= j < |stored| ensures 1 <= progress[j] <= |files| && IsInterfaceRecord(stored[j], files[progress[j] - 1]) {
      InterfaceRecordsAt(stored, files, progress, j);
    }
  }

  lemma {:induction false} InterfaceRecordsAt(stored: seq<Resume>, files: seq<PdfFile>, progress: seq<nat>, j: nat)
    requires InterfaceRecords(stored, files, progress) && j < |stored|
    decreases |stored|
    ensures 1 <= progress[j] <= |files|
    ensures IsInterfaceRecord(stored[j], files[progress[j] - 1])
  {
    if j < |stored| - 1 {
      InterfaceRecordsAt(stored[..|stored| - 1], files, progress[..|progress| - 1], j);
    }
  }
}

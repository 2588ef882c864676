/**
 * Text of a PDF as the processor assembles it: the text of each page
 * followed by a newline, concatenated, then stripped of surrounding
 * whitespace. Opening or parsing the file is not modelled: the pages are an
 * input, `None` when reading failed.
 */
module PdfText {
  import opened Wrappers
  import opened Chars

  /** The text accumulated by the page loop: each page followed by a newline. */
  function ConcatPages(pages: seq<string>): (r: string)
    ensures |pages| > 0 ==> |r| > 0 && r[|r| - 1] == '\n'
  {
    if |pages| == 0 then ""
    else ConcatPages(pages[..|pages| - 1]) + pages[|pages| - 1] + "\n"
  }

  /**
   * `extract_text_from_pdf`: the stripped page text, or `None` when the file
   * could not be read.
   */
  function ExtractText(pages: Option<seq<string>>): (r: Option<string>)
    ensures r.None? <==> pages.None?
    ensures r.Some? ==> Stripped(r.value)
  {
    match pages
    case None => None
    case Some(ps) => Some(Strip(ConcatPages(ps)))
  }

  /** Appending a newline to every page is joining with newlines and adding one more. */
  lemma {:induction false} ConcatIsJoinThenNewline(pages: seq<string>)
    requires |pages| > 0
    ensures ConcatPages(pages) == Join(pages, "\n") + "\n"
  {
    var init := pages[..|pages| - 1];
    if |init| > 0 {
      ConcatIsJoinThenNewline(init);
    }
  }

  /**
   * The extracted text is the pages joined with newlines, stripped: the final
   * newline the loop adds is removed by the strip.
   */
  lemma ExtractTextIsStrippedJoin(pages: seq<string>)
    ensures ExtractText(Some(pages)) == Some(Strip(Join(pages, "\n")))
  {
    if |pages| > 0 {
      ConcatIsJoinThenNewline(pages);
      StripIgnoresTrailingSpace(Join(pages, "\n"), "\n");
    } else {
      StripKeepsStripped("");
    }
  }

  /** A document with no pages gives the empty text, which callers treat as no text. */
  lemma NoPagesGiveEmptyText()
    ensures ExtractText(Some([])) == Some("")
  {
    StripKeepsStripped("");
  }

  /** A single page without surrounding whitespace comes back exactly. */
  lemma SingleStrippedPageRoundTrips(page: string)
    requires Stripped(page)
    ensures ExtractText(Some([page])) == Some(page)
  {
    ExtractTextIsStrippedJoin([page]);
    StripKeepsStripped(page);
  }

  /** A single page of whitespace gives the empty text. */
  lemma BlankPageHasNoText(page: string)
    requires AllSpace(page)
    ensures ExtractText(Some([page])) == Some("")
  {
    ExtractTextIsStrippedJoin([page]);
    StripAllSpace(page);
  }
}

/**
 * A résumé as stored in the vector store: a file name, the extracted text
 * (absent when text extraction failed), and the extracted skills.
 *
 * The command-line processor stores these under the class "CV"; the search
 * interface stores and reads them under the class "Resume". The model keeps
 * one record type for both.
 */
module Records {
  import opened Wrappers

  datatype Resume = Resume(filename: string, content: Option<string>, skills: seq<string>)
}

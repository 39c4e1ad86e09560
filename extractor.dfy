/** `extract_text`: the file suffix selects the PDF reader (text per page)
    or the Word reader (text per paragraph), and the pieces are joined with
    newlines. The readers themselves are foreign libraries and appear here
    only as the sequences of strings they yield, or the message they raise. */
module Extractor {
  import opened Results
  import opened Text

  const PdfSuffix := ".pdf"
  const DocxSuffix := ".docx"

  /** The message of the `ValueError` raised for any other suffix. */
  const UnsupportedFormat := "Unsupported file format"

  datatype Format = Pdf | Docx

  /** What the two document libraries yield when a path is opened with them:
      the text of every page in page order (`fitz`), or the text of every
      paragraph in document order (`python-docx`), or the message of the
      exception they raise on a missing or corrupt file. */
  datatype Readers = Readers(
    pdfPages: string -> Result<seq<string>>,
    docxParagraphs: string -> Result<seq<string>>)

  /** The suffix dispatch: `.pdf` is tried first, then `.docx`; every other
      path is an error. No path ends in both suffixes, so the order of the
      two tests never matters. */
  function FormatOf(path: string): (r: Result<Format>)
    ensures r == Ok(Pdf) <==> EndsWith(path, PdfSuffix)
    ensures r == Ok(Docx) <==> EndsWith(path, DocxSuffix)
    ensures r.Err? <==> !EndsWith(path, PdfSuffix) && !EndsWith(path, DocxSuffix)
    ensures r.Err? ==> r.error == UnsupportedFormat
  {
    if EndsWith(path, PdfSuffix) then
      assert path[|path| - 1] == 'f';
      Ok(Pdf)
    else if EndsWith(path, DocxSuffix) then Ok(Docx)
    else Err(UnsupportedFormat)
  }

  /** `extract_text(file_path)`. */
  function ExtractText(path: string, readers: Readers): Result<string>
  {
    var format :- FormatOf(path);
    match format
    case Pdf =>
      var pages :- readers.pdfPages(path);
      Ok(Join("\n", pages))
    case Docx =>
      var paragraphs :- readers.docxParagraphs(path);
      Ok(Join("\n", paragraphs))
  }

  /** A `.pdf` path is read with the PDF reader alone: its pages joined by
      newlines, or the reader's error; the Word reader is never consulted. */
  lemma PdfBranch(path: string, readers: Readers, other: string -> Result<seq<string>>)
    requires EndsWith(path, PdfSuffix)
    ensures ExtractText(path, readers) ==
      match readers.pdfPages(path)
      case Ok(pages) => Ok(Join("\n", pages))
      case Err(m) => Err(m)
    ensures ExtractText(path, readers) == ExtractText(path, readers.(docxParagraphs := other))
  {
  }

  /** A `.docx` path is read with the Word reader alone: its paragraphs
      joined by newlines, or the reader's error; the PDF reader is never consulted. */
  lemma DocxBranch(path: string, readers: Readers, other: string -> Result<seq<string>>)
    requires EndsWith(path, DocxSuffix)
    ensures ExtractText(path, readers) ==
      match readers.docxParagraphs(path)
      case Ok(paragraphs) => Ok(Join("\n", paragraphs))
      case Err(m) => Err(m)
    ensures ExtractText(path, readers) == ExtractText(path, readers.(pdfPages := other))
  {
  }

  /** Any other path fails with "Unsupported file format", whatever the readers would do. */
  lemma UnsupportedBranch(path: string, readers: Readers)
    requires !EndsWith(path, PdfSuffix) && !EndsWith(path, DocxSuffix)
    ensures ExtractText(path, readers) == Err(UnsupportedFormat)
  {
  }

  /** A PDF and a Word document whose pages and paragraphs carry the same
      strings extract to the same text. */
  lemma FormatIndependence(pdfPath: string, docxPath: string, readers: Readers, parts: seq<string>)
    requires EndsWith(pdfPath, PdfSuffix) && EndsWith(docxPath, DocxSuffix)
    requires readers.pdfPages(pdfPath) == Ok(parts)
    requires readers.docxParagraphs(docxPath) == Ok(parts)
    ensures ExtractText(pdfPath, readers) == ExtractText(docxPath, readers)
    ensures ExtractText(pdfPath, readers) == Ok(Join("\n", parts))
  {
  }

  /** The extracted text keeps every page (or paragraph) in its original
      order: when no piece contains a newline, splitting the text on
      newlines gives the pieces back. */
  lemma ExtractionKeepsOrder(path: string, readers: Readers, parts: seq<string>)
    requires EndsWith(path, PdfSuffix) || EndsWith(path, DocxSuffix)
    requires EndsWith(path, PdfSuffix) ==> readers.pdfPages(path) == Ok(parts)
    requires EndsWith(path, DocxSuffix) ==> readers.docxParagraphs(path) == Ok(parts)
    requires |parts| > 0 && forall k :: 0 <= k < |parts| ==> '\n' !in parts[k]
    ensures ExtractText(path, readers).Ok?
    ensures Split(ExtractText(path, readers).value, '\n') == parts
  {
    SplitJoin(parts, '\n');
  }

  /** An extraction fails only with the unsupported-format message or with
      the error of the reader that the suffix selects. */
  lemma {:induction false} ExtractionFailureOrigin(path: string, readers: Readers, m: string)
    requires ExtractText(path, readers) == Err(m)
    ensures (m == UnsupportedFormat && !EndsWith(path, PdfSuffix) && !EndsWith(path, DocxSuffix)) ||
            (EndsWith(path, PdfSuffix) && readers.pdfPages(path) == Err(m)) ||
            (EndsWith(path, DocxSuffix) && readers.docxParagraphs(path) == Err(m))
  {
    if EndsWith(path, PdfSuffix) {
      PdfBranch(path, readers, readers.docxParagraphs);
      assert readers.pdfPages(path).Err?;
    } else if EndsWith(path, DocxSuffix) {
      DocxBranch(path, readers, readers.pdfPages);
      assert readers.docxParagraphs(path).Err?;
    } else {
      UnsupportedBranch(path, readers);
    }
  }
}

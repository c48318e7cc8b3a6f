/** The upload path in front of the field parser: `read_file` (app.py:15-21)
    chooses how to turn an uploaded file into text by its media type, and
    `read_pdf` (app.py:23-28) concatenates the text of a PDF's pages. The
    libraries behind them are parameters: `decode` stands for
    `bytes.decode("utf-8")` (`None` when the bytes are not valid UTF-8) and
    `extract` for opening the PDF with pdfplumber and calling
    `extract_text()` on each page (`None` when a page has no text). */
module FileReader {
  import opened Wrappers
  import opened Text
  import opened FieldParser

  newtype byte = x: int | 0 <= x < 256

  /** An uploaded file: its declared media type (`file.type`) and its bytes
      (`file.getvalue()`). */
  datatype UploadedFile = UploadedFile(mediaType: string, data: seq<byte>)

  /** Why reading a file fails: a media type that is neither PDF nor plain
      text (the `ValueError` of app.py:21), or bytes that are not UTF-8 (the
      `UnicodeDecodeError` that `decode` raises). */
  datatype ReadError = UnsupportedFormat(message: string) | InvalidUtf8

  const PdfType: string := "application/pdf"
  const TextType: string := "text/plain"
  const UnsupportedMessage: string := "Unsupported file format. Please provide a PDF or text file."

  /** Python's `page.extract_text() or ""`. */
  function PageText(page: Option<string>): string {
    page.GetOr("")
  }

  /** `read_pdf` over the pages' extracted texts: the loop appends each
      page's text, in page order, to the text gathered so far. Pages without
      text add nothing. */
  function ReadPdf(pages: seq<Option<string>>): (r: string)
    ensures (forall i :: 0 <= i < |pages| ==> pages[i].None?) ==> r == ""
    ensures forall i :: 0 <= i < |pages| && pages[i].Some? ==> |pages[i].value| <= |r|
    decreases |pages|
  {
    if pages == [] then ""
    else ReadPdf(pages[..|pages| - 1]) + PageText(pages[|pages| - 1])
  }

  /* ------------------------------------------------- reference definitions */

  /** The texts of the pages that have one, in page order. */
  function Present(pages: seq<Option<string>>): seq<string>
    decreases |pages|
  {
    if pages == [] then []
    else (if pages[0].Some? then [pages[0].value] else []) + Present(pages[1..])
  }

  /** The concatenation of a list of strings, with no separator. */
  function Concat(parts: seq<string>): string
    decreases |parts|
  {
    if parts == [] then "" else parts[0] + Concat(parts[1..])
  }

  /* ---------------------------------------------------------------- lemmas */

  /** Reading the pages of `a` and then those of `b` gives the text of `a`
      followed by the text of `b`. */
  lemma {:induction false} ReadPdfAppend(a: seq<Option<string>>, b: seq<Option<string>>)
    ensures ReadPdf(a + b) == ReadPdf(a) + ReadPdf(b)
    decreases |b|
  {
    if b == [] {
      assert a + b == a;
    } else {
      var n := |b| - 1;
      assert (a + b)[..|a + b| - 1] == a + b[..n];
      assert (a + b)[|a + b| - 1] == b[n];
      ReadPdfAppend(a, b[..n]);
      ConcatAssoc(ReadPdf(a), ReadPdf(b[..n]), PageText(b[n]));
    }
  }

  /** `read_pdf` is the in-order concatenation, without separators, of the
      texts of the pages that have text. */
  lemma {:induction false} ReadPdfIsConcatOfPresent(pages: seq<Option<string>>)
    ensures ReadPdf(pages) == Concat(Present(pages))
    decreases |pages|
  {
    if pages != [] {
      var tail := pages[1..];
      assert pages == [pages[0]] + tail;
      ReadPdfAppend([pages[0]], tail);
      ReadPdfOnePage(pages[0]);
      ReadPdfIsConcatOfPresent(tail);
      if pages[0].Some? {
        assert Present(pages) == [pages[0].value] + Present(tail);
      } else {
        assert Present(pages) == Present(tail);
      }
    }
  }

  /** A single page reads as its own text. */
  lemma ReadPdfOnePage(p: Option<string>)
    ensures ReadPdf([p]) == PageText(p)
  {
    assert [p][..0] == [];
  }

  /** A page without text (no text at all, or the empty text) gives the
      same result as leaving the page out: `extract_text() or ""` makes both
      contribute `""`. */
  lemma ReadPdfSkipsEmptyPage(a: seq<Option<string>>, p: Option<string>, b: seq<Option<string>>)
    requires PageText(p) == ""
    ensures ReadPdf(a + [p] + b) == ReadPdf(a + b)
  {
    ReadPdfOnePage(p);
    ReadPdfAppend(a, [p]);
    assert ReadPdf(a + [p]) == ReadPdf(a);
    ReadPdfAppend(a + [p], b);
    ReadPdfAppend(a, b);
  }

  /* -------------------------------------------------------------- read_file */

  /** `read_file`: PDF files go through `extract` and `read_pdf`, plain text
      through `decode`, and every other media type is refused with the fixed
      message. */
  function ReadFile(f: UploadedFile, decode: seq<byte> -> Option<string>,
                    extract: seq<byte> -> seq<Option<string>>): (r: Result<string, ReadError>)
    ensures f.mediaType == PdfType ==> r == Success(ReadPdf(extract(f.data)))
    ensures f.mediaType == TextType && decode(f.data).Some? ==> r == Success(decode(f.data).value)
    ensures f.mediaType == TextType && decode(f.data).None? ==> r == Failure(InvalidUtf8)
    ensures r == Failure(UnsupportedFormat(UnsupportedMessage)) <==> f.mediaType != PdfType && f.mediaType != TextType
  {
    if f.mediaType == PdfType then
      Success(ReadPdf(extract(f.data)))
    else if f.mediaType == TextType then
      match decode(f.data)
      case Some(s) => Success(s)
      case None => Failure(InvalidUtf8)
    else
      Failure(UnsupportedFormat(UnsupportedMessage))
  }

  /** The PDF path never decodes and the text path never opens a PDF: the
      result for each depends only on its own library call. */
  lemma ReadFileUsesOneLibrary(f: UploadedFile, d1: seq<byte> -> Option<string>, d2: seq<byte> -> Option<string>,
                               e1: seq<byte> -> seq<Option<string>>, e2: seq<byte> -> seq<Option<string>>)
    ensures f.mediaType == PdfType ==> ReadFile(f, d1, e1) == ReadFile(f, d2, e1)
    ensures f.mediaType == TextType ==> ReadFile(f, d1, e1) == ReadFile(f, d1, e2)
    ensures f.mediaType != PdfType && f.mediaType != TextType ==> ReadFile(f, d1, e1) == ReadFile(f, d2, e2)
  {
  }

  /** The upload step of the app (app.py:197-198): read the file, then parse
      its text. */
  function ExtractFields(f: UploadedFile, decode: seq<byte> -> Option<string>,
                         extract: seq<byte> -> seq<Option<string>>): (r: Result<map<string, string>, ReadError>)
    ensures r.Success? <==> ReadFile(f, decode, extract).Success?
    ensures ReadFile(f, decode, extract).Success? ==> r == Success(ParseInput(ReadFile(f, decode, extract).value))
    ensures r.Success? ==> ExpectedSet() <= r.value.Keys
    ensures r.Failure? ==> r.error == ReadFile(f, decode, extract).error
  {
    match ReadFile(f, decode, extract)
    case Success(text) => Success(ParseInput(text))
    case Failure(e) => Failure(e)
  }

  /** A file of any other media type is refused before its content is looked
      at: neither library is called and nothing is parsed. */
  lemma UnsupportedRefusedBeforeParsing(f: UploadedFile, decode: seq<byte> -> Option<string>,
                                        extract: seq<byte> -> seq<Option<string>>)
    requires f.mediaType != PdfType && f.mediaType != TextType
    ensures forall data ::
      ExtractFields(UploadedFile(f.mediaType, data), decode, extract) == Failure(UnsupportedFormat(UnsupportedMessage))
  {
  }

  /** The pages `[Some(p1), None]` read as `p1`. */
  lemma ReadPdfFirstPageOnly(p1: string)
    ensures ReadPdf([Some(p1), None]) == p1
  {
    ReadPdfSkipsEmptyPage([Some(p1)], None, []);
    assert [Some(p1)] + [None] + [] == [Some(p1), None];
    assert [Some(p1)] + [] == [Some(p1)];
    assert ReadPdf([Some(p1)]) == "" + p1;
  }

  /** A two-page PDF whose second page has no text gives the same fields as
      its first page alone. */
  lemma ExamplePdfEmptySecondPage(f: UploadedFile, decode: seq<byte> -> Option<string>,
                                  extract: seq<byte> -> seq<Option<string>>, p1: string)
    requires f.mediaType == PdfType && extract(f.data) == [Some(p1), None]
    ensures ExtractFields(f, decode, extract) == Success(ParseInput(p1))
  {
    assert ReadFile(f, decode, extract) == Success(p1) by {
      ReadPdfFirstPageOnly(p1);
    }
  }
}

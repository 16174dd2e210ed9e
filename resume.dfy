/**
 * `ResumeParser` of jobs-llm.py: which extractor a resume goes through, the fallback from the
 * MarkItDown converter to the traditional readers, and the text the PDF and DOCX readers build.
 *
 * The file itself is not read here: a `ResumeFile` carries what PyPDF2 and python-docx report
 * for it (the page texts, the paragraph texts), or `None` where the library raises.
 */
module ResumeParsing {
  import opened Wrappers
  import opened PyText

  datatype ResumeFile = ResumeFile(pdfPages: Option<seq<string>>, docxParagraphs: Option<seq<string>>)

  /** The exceptions `parse_resume` lets through to its caller. */
  datatype ParseError = UnsupportedFormat(extension: string) | UnreadableFile

  /** The extensions MarkItDown is asked to convert (compared after lower-casing). */
  const MarkItDownExtensions: seq<string> := [".pdf", ".docx", ".pptx", ".jpg", ".jpeg", ".png"]

  // ---------------------------------------------------------------- text assembly

  /** The parts one after the other, with nothing between them. */
  function Concat(parts: seq<string>): string
  {
    if parts == [] then "" else Concat(parts[..|parts| - 1]) + parts[|parts| - 1]
  }

  /** Every part followed by `sep`, in order. */
  function Terminated(parts: seq<string>, sep: string): string
  {
    if parts == [] then "" else Terminated(parts[..|parts| - 1], sep) + (parts[|parts| - 1] + sep)
  }

  /** Concatenation is order-preserving: the text of two runs of parts is the text of each in turn. */
  lemma {:induction false} ConcatAppend(a: seq<string>, b: seq<string>)
    ensures Concat(a + b) == Concat(a) + Concat(b)
    decreases |b|
  {
    if b == [] {
      assert a + b == a;
    } else {
      var init, last := b[..|b| - 1], b[|b| - 1];
      var ab := a + b;
      assert ab[..|ab| - 1] == a + init && ab[|ab| - 1] == last;
      ConcatAppend(a, init);
      calc {
        Concat(ab);
        Concat(a + init) + last;
        Concat(a) + Concat(init) + last;
      }
    }
  }

  lemma {:induction false} TerminatedAppend(a: seq<string>, b: seq<string>, sep: string)
    ensures Terminated(a + b, sep) == Terminated(a, sep) + Terminated(b, sep)
    decreases |b|
  {
    if b == [] {
      assert a + b == a;
    } else {
      var init, last := b[..|b| - 1], b[|b| - 1];
      var ab := a + b;
      assert ab[..|ab| - 1] == a + init && ab[|ab| - 1] == last;
      TerminatedAppend(a, init, sep);
      calc {
        Terminated(ab, sep);
        Terminated(a + init, sep) + (last + sep);
        Terminated(a, sep) + Terminated(init, sep) + (last + sep);
      }
    }
  }

  /** The terminated text is the parts' own text plus one separator per part. */
  lemma {:induction false} TerminatedLength(parts: seq<string>, sep: string)
    ensures |Terminated(parts, sep)| == |Concat(parts)| + |parts| * |sep|
  {
    if parts != [] {
      var init := parts[..|parts| - 1];
      TerminatedLength(init, sep);
      assert |parts| * |sep| == |init| * |sep| + |sep| by {
        assert |parts| == |init| + 1;
      }
    }
  }

  /** A non-empty terminated text ends with the separator. */
  lemma TerminatedEndsWithSeparator(parts: seq<string>, sep: string)
    requires parts != []
    ensures EndsWith(Terminated(parts, sep), sep)
  {
    var t := Terminated(parts, sep);
    assert t[|t| - |sep|..] == sep;
  }

  /** `text += part` over the parts, in order. */
  method AppendAll(parts: seq<string>) returns (text: string)
    ensures text == Concat(parts)
  {
    text := "";
    for i := 0 to |parts|
      invariant text == Concat(parts[..i])
    {
      assert parts[..i + 1][..i] == parts[..i];
      text := text + parts[i];
    }
    assert parts[..|parts|] == parts;
  }

  /** `text += part + sep` over the parts, in order. */
  method AppendTerminated(parts: seq<string>, sep: string) returns (text: string)
    ensures text == Terminated(parts, sep)
  {
    text := "";
    for i := 0 to |parts|
      invariant text == Terminated(parts[..i], sep)
    {
      assert parts[..i + 1][..i] == parts[..i];
      text := text + (parts[i] + sep);
    }
    assert parts[..|parts|] == parts;
  }

  // ---------------------------------------------------------------- the readers

  /** `_parse_pdf`: the page texts concatenated in page order, with no separator. */
  method ParsePdf(file: ResumeFile) returns (r: Result<string, ParseError>)
    ensures file.pdfPages.None? ==> r == Err(UnreadableFile)
    ensures file.pdfPages.Some? ==> r == Ok(Concat(file.pdfPages.value))
  {
    if file.pdfPages.None? {
      return Err(UnreadableFile);
    }
    var text := AppendAll(file.pdfPages.value);
    r := Ok(text);
  }

  /** `_parse_docx`: every paragraph's text followed by a newline, in document order. */
  method ParseDocx(file: ResumeFile) returns (r: Result<string, ParseError>)
    ensures file.docxParagraphs.None? ==> r == Err(UnreadableFile)
    ensures file.docxParagraphs.Some? ==> r == Ok(Terminated(file.docxParagraphs.value, "\n"))
  {
    if file.docxParagraphs.None? {
      return Err(UnreadableFile);
    }
    var text := AppendTerminated(file.docxParagraphs.value, "\n");
    r := Ok(text);
  }

  /** What `_parse_traditional` answers, as a value. */
  function TraditionalResult(file: ResumeFile, extension: string): Result<string, ParseError>
  {
    if Lower(extension) == ".pdf" then
      (if file.pdfPages.Some? then Ok(Concat(file.pdfPages.value)) else Err(UnreadableFile))
    else if Lower(extension) == ".docx" then
      (if file.docxParagraphs.Some? then Ok(Terminated(file.docxParagraphs.value, "\n")) else Err(UnreadableFile))
    else Err(UnsupportedFormat(extension))
  }

  /**
   * `_parse_traditional`: the lower-cased extension picks the reader; any other extension is the
   * `ValueError` that is re-raised to the caller.
   */
  method ParseTraditional(file: ResumeFile, extension: string) returns (r: Result<string, ParseError>)
    ensures r == TraditionalResult(file, extension)
  {
    if Lower(extension) == ".pdf" {
      r := ParsePdf(file);
    } else if Lower(extension) == ".docx" {
      r := ParseDocx(file);
    } else {
      r := Err(UnsupportedFormat(extension));
    }
  }

  class ResumeParser {
    /** Whether `md_converter` is set: exactly when an LLM client was handed in. */
    var hasConverter: bool

    constructor(llmClient: bool)
      ensures hasConverter == llmClient
    {
      hasConverter := llmClient;
    }

    /**
     * `_parse_with_markitdown`: the converter's text, or (when conversion raises, `converted`
     * being `None`) the traditional reader on the same file.
     */
    method ParseWithMarkItDown(file: ResumeFile, extension: string, converted: Option<string>)
      returns (r: Result<string, ParseError>)
      ensures converted.Some? ==> r == Ok(converted.value)
      ensures converted.None? ==> r == TraditionalResult(file, extension)
    {
      if converted.Some? {
        return Ok(converted.value);
      }
      r := ParseTraditional(file, extension);
    }

    /**
     * `parse_resume`: MarkItDown for a parser that has a converter and an extension it handles,
     * the traditional readers otherwise.  `converted` is what the converter answers for the file.
     */
    method ParseResume(file: ResumeFile, extension: string, converted: Option<string>)
      returns (r: Result<string, ParseError>)
      ensures hasConverter && Lower(extension) in MarkItDownExtensions && converted.Some? ==>
        r == Ok(converted.value)
      ensures !(hasConverter && Lower(extension) in MarkItDownExtensions && converted.Some?) ==>
        r == TraditionalResult(file, extension)
    {
      if hasConverter && Lower(extension) in MarkItDownExtensions {
        r := ParseWithMarkItDown(file, extension, converted);
      } else {
        r := ParseTraditional(file, extension);
      }
    }
  }

  /** Only a `.pdf` or `.docx` file (in any letter case) can come back as text without a converter. */
  lemma TraditionalNeedsPdfOrDocx(file: ResumeFile, extension: string)
    ensures TraditionalResult(file, extension).Ok? ==> Lower(extension) == ".pdf" || Lower(extension) == ".docx"
    ensures Lower(extension) != ".pdf" && Lower(extension) != ".docx" ==>
      TraditionalResult(file, extension) == Err(UnsupportedFormat(extension))
  {
  }

  /** The extensions compare case-insensitively: ".PDF" is read as a PDF. */
  lemma UpperCasePdf(file: ResumeFile)
    requires file.pdfPages.Some?
    ensures TraditionalResult(file, ".PDF") == Ok(Concat(file.pdfPages.value))
  {
    assert Lower(".PDF") == ".pdf";
  }
}

/**
 * Text extraction from an uploaded résumé or job description (src/utils.py).
 *
 * The PDF and Word libraries and the UTF-8 decoder are foreign code; they
 * enter the model as the functions of a `Readers` value, each of which either
 * yields its result or raises an exception with some message.
 */
module Utils {
  import opened Wrappers
  import opened Text

  type Bytes = seq<bv8>

  /** What the foreign readers make of the uploaded bytes. */
  datatype Readers = Readers(
    // PdfReader: either fails to open, or gives one extract_text() outcome per page
    pdfPages: Bytes -> Result<seq<Result<string, string>>, string>,
    // Document: either fails to open, or gives the text of each paragraph
    docxParagraphs: Bytes -> Result<seq<string>, string>,
    // bytes.decode("utf-8")
    utf8: Bytes -> Result<string, string>)

  /** Which branch of the extension dispatch a file name selects. */
  datatype Format = Pdf | Docx | Txt | Other

  const ErrorPrefix := "Error extracting text: "
  /** The message an exception in a recognised branch is reported as. */
  function ErrorReport(e: string): (m: string)
    ensures StartsWith(m, ErrorPrefix) && m[|ErrorPrefix|..] == e
  {
    ErrorPrefix + e
  }

  const UnsupportedPrefix := "Error: Unsupported file format for "

  /** The dispatch on the lower-cased file name, tried in the order .pdf, .docx, .txt. */
  function FormatOf(fileName: string): (f: Format)
    ensures f == Pdf <==> EndsWith(LowerAscii(fileName), ".pdf")
    ensures f == Docx <==> EndsWith(LowerAscii(fileName), ".docx")
    ensures f == Txt <==> EndsWith(LowerAscii(fileName), ".txt")
  {
    var lower := LowerAscii(fileName);
    SuffixesExclusive(lower);
    if EndsWith(lower, ".pdf") then Pdf
    else if EndsWith(lower, ".docx") then Docx
    else if EndsWith(lower, ".txt") then Txt
    else Other
  }

  /** The last character of a string ending in a suffix is the suffix's last character. */
  lemma EndsWithLast(s: string, suffix: string)
    requires |suffix| > 0 && EndsWith(s, suffix)
    ensures s[|s| - 1] == suffix[|suffix| - 1]
  {
    assert s[|s| - |suffix|..][|suffix| - 1] == s[|s| - 1];
  }

  /** No name ends in two of the three suffixes: they end in different letters. */
  lemma SuffixesExclusive(s: string)
    ensures !(EndsWith(s, ".pdf") && EndsWith(s, ".docx"))
    ensures !(EndsWith(s, ".pdf") && EndsWith(s, ".txt"))
    ensures !(EndsWith(s, ".docx") && EndsWith(s, ".txt"))
  {
    if EndsWith(s, ".pdf") { EndsWithLast(s, ".pdf"); }
    if EndsWith(s, ".docx") { EndsWithLast(s, ".docx"); }
    if EndsWith(s, ".txt") { EndsWithLast(s, ".txt"); }
  }

  /** Only the final suffix decides, whatever its letter case. */
  lemma FormatOfSuffix(stem: string, ext: string)
    ensures LowerAscii(ext) == ".pdf" ==> FormatOf(stem + ext) == Pdf
    ensures LowerAscii(ext) == ".docx" ==> FormatOf(stem + ext) == Docx
    ensures LowerAscii(ext) == ".txt" ==> FormatOf(stem + ext) == Txt
  {
    LowerAsciiAppend(stem, ext);
    var lower := LowerAscii(stem + ext);
    assert lower[|lower| - |ext|..] == LowerAscii(ext);
    if LowerAscii(ext) == ".docx" {
      assert lower[|lower| - 4..] == "docx";
      assert !EndsWith(lower, ".pdf");
    }
    if LowerAscii(ext) == ".txt" {
      assert lower[|lower| - 4..] == ".txt";
      assert !EndsWith(lower, ".pdf");
      assert |lower| < 5 || lower[|lower| - 5..][1..] == ".txt";
      assert !EndsWith(lower, ".docx");
    }
  }

  /** A name without one of the three suffixes takes the fallback branch. */
  lemma FormatOfOther(fileName: string)
    requires !EndsWith(LowerAscii(fileName), ".pdf")
    requires !EndsWith(LowerAscii(fileName), ".docx")
    requires !EndsWith(LowerAscii(fileName), ".txt")
    ensures FormatOf(fileName) == Other
  {
  }

  /** Each item followed by a newline, concatenated in order. */
  function Lines(items: seq<string>): (s: string)
    ensures |items| > 0 ==> |s| > 0 && s[|s| - 1] == '\n'
  {
    if |items| == 0 then "" else Lines(items[..|items| - 1]) + items[|items| - 1] + "\n"
  }

  /** Lines read from the front: the first item, its newline, then the rest. */
  lemma {:induction false} LinesCons(x: string, rest: seq<string>)
    ensures Lines([x] + rest) == x + "\n" + Lines(rest)
    decreases |rest|
  {
    if |rest| == 0 {
      assert [x] + rest == [x];
      assert Lines([x]) == Lines([]) + x + "\n";
    } else {
      var xs := [x] + rest;
      var init, last := rest[..|rest| - 1], rest[|rest| - 1];
      assert xs[..|xs| - 1] == [x] + init && xs[|xs| - 1] == last;
      assert Lines(rest) == Lines(init) + last + "\n";
      LinesCons(x, init);
      calc {
        Lines(xs);
        Lines([x] + init) + last + "\n";
        (x + "\n" + Lines(init)) + last + "\n";
        { RegroupTail(x + "\n", Lines(init), last, "\n"); }
        x + "\n" + (Lines(init) + last + "\n");
      }
    }
  }

  /** The page texts of a PDF, each followed by a newline, or the first page's failure. */
  function PageTexts(pages: seq<Result<string, string>>): (r: Result<string, string>)
    ensures r.Success? ==> |r.value| >= |pages|
  {
    if |pages| == 0 then Success("")
    else
      match PageTexts(pages[..|pages| - 1])
      case Failure(e) => Failure(e)
      case Success(t) =>
        match pages[|pages| - 1]
        case Failure(e) => Failure(e)
        case Success(p) => Success(t + p + "\n")
  }

  /** The PDF text is produced exactly when every page's extraction succeeds. */
  lemma {:induction false} PageTextsSuccessIff(pages: seq<Result<string, string>>)
    ensures PageTexts(pages).Success? <==> forall k :: 0 <= k < |pages| ==> pages[k].Success?
  {
    if |pages| > 0 {
      var init := pages[..|pages| - 1];
      PageTextsSuccessIff(init);
      assert forall k :: 0 <= k < |init| ==> init[k] == pages[k];
    }
  }

  /** Once a page has failed, the later pages change nothing. */
  lemma {:induction false} PageTextsFailureStays(pages: seq<Result<string, string>>, k: nat)
    requires k <= |pages|
    requires PageTexts(pages[..k]).Failure?
    ensures PageTexts(pages) == PageTexts(pages[..k])
    decreases |pages| - k
  {
    if k < |pages| {
      assert pages[..k + 1][..k] == pages[..k];
      PageTextsFailureStays(pages, k + 1);
    } else {
      assert pages[..k] == pages;
    }
  }

  /** Pages every one of which extracts successfully, with the given texts. */
  function ExtractablePages(texts: seq<string>): (pages: seq<Result<string, string>>)
    ensures |pages| == |texts|
    ensures forall i :: 0 <= i < |texts| ==> pages[i] == Success(texts[i])
  {
    seq(|texts|, i requires 0 <= i < |texts| => Success(texts[i]))
  }

  /** When every page yields its text, the PDF text is those texts as lines. */
  lemma {:induction false} PageTextsAllSucceed(texts: seq<string>)
    ensures PageTexts(ExtractablePages(texts)) == Success(Lines(texts))
  {
    if |texts| > 0 {
      var pages := ExtractablePages(texts);
      var init := texts[..|texts| - 1];
      assert pages[..|pages| - 1] == ExtractablePages(init);
      PageTextsAllSucceed(init);
    }
  }

  /** A page that fails makes the whole PDF fail with the first failing page's message. */
  lemma PageTextsFirstFailure(pages: seq<Result<string, string>>, k: nat)
    requires k < |pages| && pages[k].Failure?
    requires forall i :: 0 <= i < k ==> pages[i].Success?
    ensures PageTexts(pages) == Failure(pages[k].error)
  {
    PrefixSucceeds(pages, k);
    assert pages[..k + 1][..k] == pages[..k];
    PageTextsFailureStays(pages, k + 1);
  }

  lemma {:induction false} PrefixSucceeds(pages: seq<Result<string, string>>, k: nat)
    requires k <= |pages|
    requires forall i :: 0 <= i < k ==> pages[i].Success?
    ensures PageTexts(pages[..k]).Success?
  {
    if k > 0 {
      assert pages[..k][..k - 1] == pages[..k - 1];
      PrefixSucceeds(pages, k - 1);
    }
  }

  /**
   * What extract_text_from_file returns: the trimmed text on success; a
   * reader's failure in a recognised branch as an "Error extracting text"
   * message; an undecodable file of another type as an "Unsupported file
   * format" message naming the file as given.
   */
  function ExtractedText(bytes: Bytes, fileName: string, readers: Readers): (r: string)
    ensures || IsTrimmed(r)
            || (FormatOf(fileName) != Other && StartsWith(r, ErrorPrefix))
            || (FormatOf(fileName) == Other && r == UnsupportedPrefix + fileName)
  {
    match FormatOf(fileName)
    case Pdf =>
      (match readers.pdfPages(bytes)
       case Failure(e) => ErrorReport(e)
       case Success(pages) =>
         match PageTexts(pages)
         case Failure(e) => ErrorReport(e)
         case Success(t) => Strip(t))
    case Docx =>
      (match readers.docxParagraphs(bytes)
       case Failure(e) => ErrorReport(e)
       case Success(paragraphs) => Strip(Lines(paragraphs)))
    case Txt =>
      (match readers.utf8(bytes)
       case Failure(e) => ErrorReport(e)
       case Success(t) => Strip(t))
    case Other =>
      (match readers.utf8(bytes)
       case Failure(_) => UnsupportedPrefix + fileName
       case Success(t) => Strip(t))
  }

  /** The loop over reader.pages: appends each page's text and a newline, stopping at the first page that fails. */
  method AccumulatePages(pages: seq<Result<string, string>>) returns (result: Result<string, string>)
    ensures result == PageTexts(pages)
  {
    var text := "";
    for i := 0 to |pages|
      invariant PageTexts(pages[..i]) == Success(text)
    {
      assert pages[..i + 1][..i] == pages[..i];
      if pages[i].Failure? {
        PageTextsFailureStays(pages, i + 1);
        return Failure(pages[i].error);
      }
      text := text + pages[i].value + "\n";
    }
    assert pages[..|pages|] == pages;
    return Success(text);
  }

  /** The loop over doc.paragraphs: appends each paragraph's text and a newline. */
  method AccumulateParagraphs(paragraphs: seq<string>) returns (text: string)
    ensures text == Lines(paragraphs)
  {
    text := "";
    for i := 0 to |paragraphs|
      invariant text == Lines(paragraphs[..i])
    {
      assert paragraphs[..i + 1][..i] == paragraphs[..i];
      text := text + paragraphs[i] + "\n";
    }
    assert paragraphs[..|paragraphs|] == paragraphs;
  }

  /** extract_text_from_file: dispatch on the lower-cased name, then trim what was read. */
  method ExtractTextFromFile(bytes: Bytes, fileName: string, readers: Readers) returns (text: string)
    ensures text == ExtractedText(bytes, fileName, readers)
  {
    var fileLower := LowerAscii(fileName);
    assert FormatOf(fileName) == (if EndsWith(fileLower, ".pdf") then Pdf
      else if EndsWith(fileLower, ".docx") then Docx
      else if EndsWith(fileLower, ".txt") then Txt
      else Other);
    if EndsWith(fileLower, ".pdf") {
      var reader := readers.pdfPages(bytes);
      if reader.Failure? {
        return ErrorReport(reader.error);
      }
      var pages := AccumulatePages(reader.value);
      if pages.Failure? {
        return ErrorReport(pages.error);
      }
      text := pages.value;
    } else if EndsWith(fileLower, ".docx") {
      var reader := readers.docxParagraphs(bytes);
      if reader.Failure? {
        return ErrorReport(reader.error);
      }
      text := AccumulateParagraphs(reader.value);
    } else if EndsWith(fileLower, ".txt") {
      var decoded := readers.utf8(bytes);
      if decoded.Failure? {
        return ErrorReport(decoded.error);
      }
      text := decoded.value;
    } else {
      var decoded := readers.utf8(bytes);
      if decoded.Failure? {
        return UnsupportedPrefix + fileName;
      }
      text := decoded.value;
    }
    text := Strip(text);
  }

  /** Whether the reader of the selected branch produced text. */
  predicate ReaderSucceeded(bytes: Bytes, fileName: string, readers: Readers) {
    match FormatOf(fileName)
    case Pdf => readers.pdfPages(bytes).Success? && PageTexts(readers.pdfPages(bytes).value).Success?
    case Docx => readers.docxParagraphs(bytes).Success?
    case Txt | Other => readers.utf8(bytes).Success?
  }

  /** Every successful extraction is free of leading and trailing whitespace. */
  lemma SuccessIsTrimmed(bytes: Bytes, fileName: string, readers: Readers)
    requires ReaderSucceeded(bytes, fileName, readers)
    ensures IsTrimmed(ExtractedText(bytes, fileName, readers))
  {
  }

  /** A failure in the .pdf, .docx or .txt branch is reported, not raised. */
  lemma RecognisedFailureReported(bytes: Bytes, fileName: string, readers: Readers)
    requires FormatOf(fileName) != Other
    requires !ReaderSucceeded(bytes, fileName, readers)
    ensures StartsWith(ExtractedText(bytes, fileName, readers), ErrorPrefix)
  {
  }

  /** An undecodable file of unknown type names the file exactly as uploaded, untrimmed. */
  lemma UnsupportedNamesFile(bytes: Bytes, fileName: string, readers: Readers)
    requires FormatOf(fileName) == Other
    requires !ReaderSucceeded(bytes, fileName, readers)
    ensures ExtractedText(bytes, fileName, readers) == UnsupportedPrefix + fileName
  {
  }

  /** A PDF whose pages all extract gives the trimmed page texts joined by newlines. */
  lemma PdfPagesJoined(bytes: Bytes, fileName: string, readers: Readers, texts: seq<string>)
    requires FormatOf(fileName) == Pdf
    requires readers.pdfPages(bytes) == Success(ExtractablePages(texts))
    ensures ExtractedText(bytes, fileName, readers) == Strip(Lines(texts))
  {
    PageTextsAllSucceed(texts);
  }

  /** Two pages "a" and "b" give the trimmed "a\nb": the final newline is trimmed away. */
  lemma TwoPages(a: string, b: string)
    ensures Strip(Lines([a, b])) == Strip(a + "\n" + b)
  {
    assert [a, b][..1] == [a];
    assert Lines([a]) == Lines([]) + a + "\n";
    assert Lines([a, b]) == (a + "\n" + b) + "\n";
    StripAppendSpace(a + "\n" + b, "\n");
  }

  /** A .txt file holding "Hello" yields "Hello". */
  lemma TxtHello(bytes: Bytes, stem: string, readers: Readers)
    requires readers.utf8(bytes) == Success("Hello")
    ensures ExtractedText(bytes, stem + ".txt", readers) == "Hello"
  {
    FormatOfSuffix(stem, ".txt");
    assert LowerAscii(".txt") == ".txt";
    StripTrimmed("Hello");
  }
}

/**
 * The `POST /upload-resume` handler `upload_resume`: check the file name,
 * extract the text, refuse an empty text, choose the summary, store the row
 * and answer with the new document. The PDF reader, the AI client, the
 * database insert and the clock are inputs.
 */
module UploadApi {
  import opened Wrappers
  import opened PyStr
  import opened Records
  import PdfText
  import Summary

  /** What the `INSERT` and `commit` did: the row id they produced, or the message of what they raised. */
  datatype DbOutcome = Inserted(id: nat) | DbFailed(msg: string)

  /**
   * `file.filename.lower().endswith('.pdf')`: the name check looks only at
   * the last four characters, lower-cased.
   */
  predicate IsPdfName(filename: string)
    ensures IsPdfName(filename) <==> |filename| >= 4 && Lower(filename[|filename| - 4..]) == ".pdf"
  {
    LowerLastFour(filename);
    EndsWith(Lower(filename), ".pdf")
  }

  /** Lower-casing a name and then taking its last four characters is taking them and then lower-casing. */
  lemma LowerLastFour(filename: string)
    ensures |filename| >= 4 ==> Lower(filename)[|filename| - 4..] == Lower(filename[|filename| - 4..])
  {
    if |filename| >= 4 {
      var l := Lower(filename);
      assert forall k :: |filename| - 4 <= k < |filename| ==> l[k] == Lower(filename[|filename| - 4..])[k - (|filename| - 4)];
    }
  }

  /** The name check ignores case: a name passes exactly when its lower-cased form does. */
  lemma PdfNameCaseInsensitive(filename: string)
    ensures IsPdfName(filename) <==> IsPdfName(Lower(filename))
  {
    LowerIdempotent(filename);
    LowerLastFour(filename);
  }

  /** `len(text.split())`: the number of whitespace-separated words, zero exactly for an all-whitespace text. */
  function WordCount(text: string): (n: nat)
    ensures n == 0 <==> AllSpace(text)
  {
    SplitWsEmptyIffAllSpace(text);
    |SplitWs(text)|
  }

  /** A whitespace character separates words: the words on either side of it add up. */
  lemma WordCountAtSpace(a: string, c: char, b: string)
    requires IsSpace(c)
    ensures WordCount(a + [c] + b) == WordCount(a) + WordCount(b)
  {
    SplitWsAtSpace(a, c, b);
  }

  /** A run of characters without whitespace is one word. */
  lemma WordCountOfWord(w: string)
    requires w != [] && NoSpace(w)
    ensures WordCount(w) == 1
  {
    SplitWsOfWord(w);
  }

  const NotPdf: HttpError := HttpError(400, "Only PDF files are allowed")
  const NoText: HttpError := HttpError(400, "Could not extract text from PDF")

  /** The text the handler works on when the reader yields `pages`. */
  function Extracted(pages: seq<PdfText.Page>): string {
    Strip(PdfText.JoinPages(pages))
  }

  /**
   * `upload_resume(file)`: a name without the `.pdf` suffix is refused before
   * anything else; an unreadable PDF is a 400 naming the reader's error; a
   * PDF whose pages are all blank is a 400; a failed insert is a 500; and
   * otherwise the response is the stored document, whose word count is the
   * number of words of the extracted text and is at least one.
   */
  method UploadResume(
    filename: string, doc: PdfText.PdfDoc,
    apiKey: Option<string>, client: (string, Summary.AiRequest) -> Summary.AiReply,
    db: DbOutcome, now: string)
    returns (r: Result<Insight, HttpError>)
    ensures !IsPdfName(filename) ==> r == Failure(NotPdf)
    ensures IsPdfName(filename) && doc.Unreadable? ==> r == Failure(HttpError(400, "Error reading PDF: " + doc.msg))
    ensures IsPdfName(filename) && doc.Readable? && (forall i :: 0 <= i < |doc.pages| ==> PdfText.BlankPage(doc.pages[i]))
      ==> r == Failure(NoText)
    ensures IsPdfName(filename) && doc.Readable? && Extracted(doc.pages) != [] && db.DbFailed?
      ==> r == Failure(HttpError(500, "Error processing file: " + db.msg))
    ensures r.Success? <==> IsPdfName(filename) && doc.Readable? && Extracted(doc.pages) != [] && db.Inserted?
    ensures r.Success? ==>
      var text := Extracted(doc.pages);
      var s := Summary.AiSummarySync(text, apiKey, client);
      && r.value == Insight(db.id, filename, now, s.0, s.1, WordCount(text))
      && r.value.wordCount >= 1
  {
    if !IsPdfName(filename) {
      return Failure(NotPdf);
    }
    var extracted := PdfText.ExtractTextFromPdf(doc);
    if extracted.Failure? {
      return Failure(extracted.error);
    }
    var text := extracted.value;
    PdfText.ExtractedEmptyIffAllBlank(doc.pages);
    if text == [] {
      return Failure(NoText);
    }
    assert !AllSpace(text) by {
      assert !IsSpace(text[0]);
    }
    r := StoreDocument(filename, text, apiKey, client, db, now);
  }

  /**
   * The rest of the handler once a text with at least one word is in hand:
   * choose the summary, store the row and answer with the stored document,
   * or with a 500 naming what the insert raised.
   */
  method StoreDocument(
    filename: string, text: string,
    apiKey: Option<string>, client: (string, Summary.AiRequest) -> Summary.AiReply,
    db: DbOutcome, now: string)
    returns (r: Result<Insight, HttpError>)
    requires !AllSpace(text)
    ensures db.DbFailed? ==> r == Failure(HttpError(500, "Error processing file: " + db.msg))
    ensures db.Inserted? ==>
      var s := Summary.AiSummarySync(text, apiKey, client);
      && r == Success(Insight(db.id, filename, now, s.0, s.1, WordCount(text)))
      && r.value.wordCount >= 1
  {
    var words := WordCount(text);
    var summary := Summary.AiSummarySync(text, apiKey, client);
    match db {
      case DbFailed(msg) =>
        r := Failure(HttpError(500, "Error processing file: " + msg));
      case Inserted(id) =>
        r := Success(Insight(id, filename, now, summary.0, summary.1, words));
    }
  }
}

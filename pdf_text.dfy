/**
 * `extract_text_from_pdf`: walk the pages the PDF reader yields, append the
 * text of every page that has some, followed by a newline, skip the pages
 * whose extraction raises, and strip the result. The PDF library is not part
 * of this model: the reader's verdict and each page's extraction outcome are
 * inputs.
 */
module PdfText {
  import opened Wrappers
  import opened PyStr
  import opened Records

  /** What `page.extract_text()` did for one page. */
  datatype Page =
    | PageText(text: string)    // returned a string (possibly empty)
    | PageNone                  // returned None
    | PageRaised(msg: string)   // raised; the loop logs it and moves on

  /** The reader over the uploaded bytes: either it yields its pages or it raises. */
  datatype PdfDoc =
    | Readable(pages: seq<Page>)
    | Unreadable(msg: string)

  /** What one page adds to the accumulator: its text and a newline when the text is truthy, else nothing. */
  function Piece(p: Page): string {
    if p.PageText? && p.text != [] then p.text + "\n" else []
  }

  /** The accumulator after the loop has visited `pages`, in order. */
  function JoinPages(pages: seq<Page>): string
    decreases |pages|
  {
    if pages == [] then [] else Piece(pages[0]) + JoinPages(pages[1..])
  }

  /**
   * The accumulator starts with the first page's piece and, unless empty,
   * ends with the newline that follows the last kept page.
   */
  lemma {:induction false} JoinPagesShape(pages: seq<Page>)
    ensures pages != [] ==> Piece(pages[0]) <= JoinPages(pages)
    ensures JoinPages(pages) == [] || JoinPages(pages)[|JoinPages(pages)| - 1] == '\n'
    decreases |pages|
  {
    if pages != [] {
      JoinPagesShape(pages[1..]);
      var rest := JoinPages(pages[1..]);
      assert JoinPages(pages) == Piece(pages[0]) + rest;
      if rest == [] {
        assert JoinPages(pages) == Piece(pages[0]);
      } else {
        assert JoinPages(pages)[|JoinPages(pages)| - 1] == rest[|rest| - 1];
      }
    }
  }

  /**
   * The page loop and the final `strip()`: the result is the stripped
   * concatenation of the pages' pieces.
   */
  method ExtractText(pages: seq<Page>) returns (text: string)
    ensures text == Strip(JoinPages(pages))
  {
    var acc: string := "";
    for i := 0 to |pages|
      invariant acc == JoinPages(pages[..i])
    {
      assert pages[..i + 1] == pages[..i] + [pages[i]];
      JoinPagesAppend(pages[..i], [pages[i]]);
      assert [pages[i]][1..] == [];
      match pages[i] {
        case PageText(t) =>
          if t != [] {
            acc := acc + t + "\n";
          }
        case PageNone =>
        case PageRaised(_) =>
      }
    }
    assert pages[..|pages|] == pages;
    text := Strip(acc);
  }

  /** `extract_text_from_pdf(pdf_content)`: a reader that raises becomes a 400 naming its message. */
  method ExtractTextFromPdf(doc: PdfDoc) returns (r: Result<string, HttpError>)
    ensures doc.Unreadable? ==> r == Failure(HttpError(400, "Error reading PDF: " + doc.msg))
    ensures doc.Readable? ==> r == Success(Strip(JoinPages(doc.pages)))
  {
    match doc {
      case Unreadable(msg) =>
        r := Failure(HttpError(400, "Error reading PDF: " + msg));
      case Readable(pages) =>
        var text := ExtractText(pages);
        r := Success(text);
    }
  }

  /** The loop's accumulator over two runs of pages is the two accumulators one after the other. */
  lemma {:induction false} JoinPagesAppend(a: seq<Page>, b: seq<Page>)
    ensures JoinPages(a + b) == JoinPages(a) + JoinPages(b)
    decreases |a|
  {
    if a == [] {
      assert a + b == b;
    } else {
      assert (a + b)[1..] == a[1..] + b;
      JoinPagesAppend(a[1..], b);
    }
  }

  /** A page with no text, or whose extraction raised, leaves the result as if it were not there. */
  lemma SilentPageSkipped(before: seq<Page>, p: Page, after: seq<Page>)
    requires !(p.PageText? && p.text != [])
    ensures JoinPages(before + [p] + after) == JoinPages(before + after)
  {
    var tail := [p] + after;
    assert before + [p] + after == before + tail;
    assert tail[1..] == after;
    assert JoinPages(tail) == JoinPages(after);
    JoinPagesAppend(before, tail);
    JoinPagesAppend(before, after);
  }

  /** A page whose text is all whitespace. */
  predicate BlankPage(p: Page) {
    !p.PageText? || AllSpace(p.text)
  }

  lemma {:induction false} JoinPagesAllSpace(pages: seq<Page>)
    ensures AllSpace(JoinPages(pages)) <==> forall i :: 0 <= i < |pages| ==> BlankPage(pages[i])
    decreases |pages|
  {
    if pages != [] {
      var first := pages[0];
      var rest := pages[1..];
      JoinPagesAllSpace(rest);
      var pc := Piece(first);
      var j := JoinPages(rest);
      assert AllSpace(pc + j) <==> AllSpace(pc) && AllSpace(j) by {
        assert forall k :: 0 <= k < |pc| ==> (pc + j)[k] == pc[k];
        assert forall k :: 0 <= k < |j| ==> (pc + j)[|pc| + k] == j[k];
      }
      assert AllSpace(pc) <==> BlankPage(first) by {
        if first.PageText? && first.text != [] {
          assert forall k :: 0 <= k < |first.text| ==> pc[k] == first.text[k];
          assert pc[|first.text|] == '\n';
        }
      }
      assert forall i :: 0 < i < |pages| ==> pages[i] == rest[i - 1];
    }
  }

  /** The extracted text is empty exactly when every page is blank, failed or had no text. */
  lemma ExtractedEmptyIffAllBlank(pages: seq<Page>)
    ensures Strip(JoinPages(pages)) == [] <==> forall i :: 0 <= i < |pages| ==> BlankPage(pages[i])
  {
    JoinPagesAllSpace(pages);
  }

  lemma PrependKeepsPrefix(w: string, u: string, v: string)
    requires u <= v
    ensures w + u <= w + v
  {
    assert (w + v)[..|w + u|] == w + u;
  }

  lemma PieceKeepsText(p: Page)
    requires p.PageText?
    ensures p.text <= Piece(p)
  {
    if p.text != [] {
      assert Piece(p)[..|p.text|] == p.text;
    }
  }

  lemma JoinPagesTakeCons(pages: seq<Page>, k: nat)
    requires 0 < k <= |pages|
    ensures JoinPages(pages[..k]) == Piece(pages[0]) + JoinPages(pages[1..][..k - 1])
  {
    assert pages[..k][0] == pages[0];
    assert pages[..k][1..] == pages[1..][..k - 1];
  }

  /** Each page's text follows, unchanged, right after what the pages before it contributed. */
  lemma {:induction false} PageTextKept(pages: seq<Page>, k: nat)
    requires k < |pages| && pages[k].PageText?
    ensures JoinPages(pages[..k]) + pages[k].text <= JoinPages(pages)
    decreases k
  {
    var t := pages[k].text;
    if k == 0 {
      assert JoinPages(pages[..0]) + t == t;
      PieceKeepsText(pages[0]);
      JoinPagesShape(pages);
    } else {
      var pc := Piece(pages[0]);
      var rest := pages[1..];
      assert rest[k - 1] == pages[k];
      PageTextKept(rest, k - 1);
      JoinPagesTakeCons(pages, k);
      var u := JoinPages(rest[..k - 1]) + t;
      assert JoinPages(pages[..k]) + t == pc + u;
      PrependKeepsPrefix(pc, u, JoinPages(rest));
    }
  }
}

/**
 * The history list `HistorySection`: the `documents` shown, the `loading`
 * flag and the `error` message, changed by `fetchDocuments`, and the
 * summary previews cut by `truncateSummary`. `Step` specifies one half of a
 * fetch on a snapshot of the state; the class `HistorySection` updates its
 * fields in place and is proved to agree with it. The request to
 * `/insights` is not part of this model: its outcome is an input.
 */
module History {
  import opened Wrappers
  import opened Records

  /** The `maxLength` default of `truncateSummary`. */
  const DefaultMaxLength: nat := 150

  const Ellipsis: string := "..."

  const LoadFailedMessage: string := "Failed to load document history"

  /**
   * `truncateSummary(summary, maxLength)`: a summary that fits is shown as it
   * is; a longer one is cut to its first `maxLength` characters and marked
   * with `"..."`.
   */
  function TruncateSummary(summary: string, maxLength: nat): (r: string)
    ensures |summary| <= maxLength ==> r == summary
    ensures |summary| > maxLength ==>
      |r| == maxLength + |Ellipsis| && r[..maxLength] == summary[..maxLength] && r[maxLength..] == Ellipsis
  {
    if |summary| <= maxLength then summary else summary[..maxLength] + Ellipsis
  }

  /** A preview never runs past `maxLength + 3` characters and always starts like the summary. */
  lemma TruncateBounds(summary: string, maxLength: nat)
    ensures var r := TruncateSummary(summary, maxLength);
      var k := if |summary| < maxLength then |summary| else maxLength;
      |r| <= maxLength + |Ellipsis| && r[..k] == summary[..k]
  {
  }

  /** Cutting a preview again changes nothing. */
  lemma TruncateIdempotent(summary: string, maxLength: nat)
    ensures TruncateSummary(TruncateSummary(summary, maxLength), maxLength) == TruncateSummary(summary, maxLength)
  {
    var r := TruncateSummary(summary, maxLength);
    if |summary| > maxLength {
      assert r[..maxLength] + Ellipsis == r;
    }
  }

  /** How `GET /insights` ended: the response's `documents` (absent when the field is missing), or an error. */
  datatype FetchOutcome = Fetched(documents: Option<seq<Insight>>) | FetchFailed

  datatype Event = FetchStart | FetchSettled(outcome: FetchOutcome)

  datatype Hist = Hist(documents: seq<Insight>, loading: bool, error: string)

  /** `useState([])`, `useState(true)`, `useState('')` */
  const Initial: Hist := Hist([], true, "")

  /** `response.data.documents || []` */
  function DocumentsOf(docs: Option<seq<Insight>>): seq<Insight> {
    if docs.Some? then docs.value else []
  }

  /** One half of `fetchDocuments`: the start sets `loading`; the end records the outcome and clears `loading`. */
  function Step(h: Hist, e: Event): Hist {
    match e
    case FetchStart => h.(loading := true)
    case FetchSettled(outcome) =>
      match outcome
      case Fetched(docs) => Hist(DocumentsOf(docs), false, "")
      case FetchFailed => h.(error := LoadFailedMessage, loading := false)
  }

  function Run(h: Hist, es: seq<Event>): Hist
    decreases |es|
  {
    if es == [] then h else Run(Step(h, es[0]), es[1..])
  }

  /**
   * A whole fetch: `loading` is false afterwards whatever happened. A success
   * shows the response's list, or an empty one, and clears the error; a
   * failure keeps the list that was shown and reports the failure.
   */
  lemma FetchOnce(h: Hist, outcome: FetchOutcome)
    ensures Step(h, FetchStart).loading
    ensures var q := Run(h, [FetchStart, FetchSettled(outcome)]);
      && !q.loading
      && (outcome.Fetched? ==> q.documents == DocumentsOf(outcome.documents) && q.error == "")
      && (outcome.FetchFailed? ==> q.documents == h.documents && q.error == LoadFailedMessage)
  {
    var es := [FetchStart, FetchSettled(outcome)];
    assert es[1..] == [FetchSettled(outcome)];
    assert [FetchSettled(outcome)][1..] == [];
    var mid := Step(h, FetchStart);
    assert Run(h, es) == Run(mid, [FetchSettled(outcome)]);
    assert Run(mid, [FetchSettled(outcome)]) == Step(mid, FetchSettled(outcome));
  }

  /** The list the last successful fetch among `es` delivered, or `current` when none succeeded. */
  function LastFetched(current: seq<Insight>, es: seq<Event>): seq<Insight>
    decreases |es|
  {
    if es == [] then current
    else
      var next := if es[0].FetchSettled? && es[0].outcome.Fetched? then DocumentsOf(es[0].outcome.documents) else current;
      LastFetched(next, es[1..])
  }

  /** Failures never touch the list: after any sequence of fetches it is what the last successful one delivered. */
  lemma {:induction false} RunShowsLastFetched(h: Hist, es: seq<Event>)
    ensures Run(h, es).documents == LastFetched(h.documents, es)
    decreases |es|
  {
    if es != [] {
      RunShowsLastFetched(Step(h, es[0]), es[1..]);
    }
  }

  /** What the component renders. */
  datatype View =
    | LoadingView
    | ErrorView(message: string)
    | ListView(previews: seq<string>, refreshOffered: bool)

  /** The three render branches, in the order the component tries them. */
  function Render(h: Hist): (v: View)
    ensures v.LoadingView? <==> h.loading
    ensures v.ErrorView? <==> !h.loading && h.error != []
    ensures v.ErrorView? ==> v.message == h.error
    ensures v.ListView? ==>
      && |v.previews| == |h.documents|
      && (forall i :: 0 <= i < |h.documents| ==> v.previews[i] == TruncateSummary(h.documents[i].summary, DefaultMaxLength))
      && (v.refreshOffered <==> h.documents != [])
  {
    if h.loading then LoadingView
    else if h.error != [] then ErrorView(h.error)
    else ListView(seq(|h.documents|, i requires 0 <= i < |h.documents| => TruncateSummary(h.documents[i].summary, DefaultMaxLength)), |h.documents| > 0)
  }

  /** The Refresh History button is offered exactly when the list is shown and not empty. */
  lemma RefreshOfferedIffListed(h: Hist)
    ensures (Render(h).ListView? && Render(h).refreshOffered) <==> !h.loading && h.error == [] && h.documents != []
  {
  }

  /** A failed fetch shows the error branch with its message, and Try Again, however full the list was. */
  lemma FailureShowsError(h: Hist)
    ensures Render(Run(h, [FetchStart, FetchSettled(FetchFailed)])) == ErrorView(LoadFailedMessage)
  {
    FetchOnce(h, FetchFailed);
  }

  /** The component's three state variables. */
  class HistorySection {
    var documents: seq<Insight>
    var loading: bool
    var error: string

    function Snapshot(): Hist
      reads this
    {
      Hist(documents, loading, error)
    }

    constructor()
      ensures Snapshot() == Initial
    {
      documents := [];
      loading := true;
      error := "";
    }

    /** `fetchDocuments` up to the request. */
    method BeginFetch()
      modifies this
      ensures Snapshot() == Step(old(Snapshot()), FetchStart)
    {
      loading := true;
    }

    /** `fetchDocuments` after the request: the success branch or the catch block, then `finally`. */
    method SettleFetch(outcome: FetchOutcome)
      modifies this
      ensures Snapshot() == Step(old(Snapshot()), FetchSettled(outcome))
    {
      match outcome {
        case Fetched(docs) =>
          documents := if docs.Some? then docs.value else [];
          error := "";
        case FetchFailed =>
          error := LoadFailedMessage;
      }
      loading := false;
    }

    /** `fetchDocuments()` from start to finish, with `outcome` as the request's result. */
    method FetchDocuments(outcome: FetchOutcome)
      modifies this
      ensures Snapshot() == Run(old(Snapshot()), [FetchStart, FetchSettled(outcome)])
      ensures !loading
    {
      ghost var before := Snapshot();
      BeginFetch();
      SettleFetch(outcome);
      FetchOnce(before, outcome);
    }
  }
}

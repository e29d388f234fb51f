/**
 * The page `Home`: the active tab, the insight on display and the
 * `refreshHistory` counter handed to the history list, changed by the
 * upload-success and view-insight callbacks and by the tab buttons. `Step`
 * specifies one handler on a snapshot of the state; the class `HomePage`
 * updates its fields in place and is proved to agree with it.
 */
module Home {
  import opened Wrappers
  import opened Records

  datatype Tab = UploadTab | HistoryTab | InsightTab

  datatype Nav = Nav(activeTab: Tab, currentInsight: Option<Insight>, refreshHistory: nat)

  /** `useState('upload')`, `useState(null)`, `useState(0)` */
  const Initial: Nav := Nav(UploadTab, None, 0)

  datatype Event =
    | UploadSucceeded(insight: Insight)
    | ViewInsight(insight: Insight)
    | ClickTab(tab: Tab)

  function Step(n: Nav, e: Event): Nav {
    match e
    case UploadSucceeded(insight) => Nav(InsightTab, Some(insight), n.refreshHistory + 1)
    case ViewInsight(insight) => n.(activeTab := InsightTab, currentInsight := Some(insight))
    case ClickTab(tab) => n.(activeTab := tab)
  }

  function Run(n: Nav, es: seq<Event>): Nav
    decreases |es|
  {
    if es == [] then n else Run(Step(n, es[0]), es[1..])
  }

  /** `{currentInsight && (...)}`: the Current Insight tab button exists only once there is an insight. */
  predicate InsightButtonShown(n: Nav) {
    n.currentInsight.Some?
  }

  predicate UploadShown(n: Nav) { n.activeTab == UploadTab }

  predicate HistoryShown(n: Nav) { n.activeTab == HistoryTab }

  /** `activeTab === 'insight' && currentInsight`: the insight view needs both. */
  predicate InsightShown(n: Nav) {
    n.activeTab == InsightTab && n.currentInsight.Some?
  }

  /** At most one content panel is on screen, and exactly one once there is an insight. */
  lemma OnePanelShown(n: Nav)
    ensures !(UploadShown(n) && HistoryShown(n)) && !(UploadShown(n) && InsightShown(n)) && !(HistoryShown(n) && InsightShown(n))
    ensures InsightButtonShown(n) ==> UploadShown(n) || HistoryShown(n) || InsightShown(n)
    ensures InsightShown(n) ==> InsightButtonShown(n)
  {
  }

  /**
   * Both callbacks show the insight they were given on the insight tab; only
   * a successful upload bumps the counter, by exactly one, and a tab button
   * changes nothing but the tab.
   */
  lemma HandlersEffect(n: Nav, e: Event)
    ensures var q := Step(n, e);
      && (e.UploadSucceeded? ==> InsightShown(q) && q.currentInsight == Some(e.insight) && q.refreshHistory == n.refreshHistory + 1)
      && (e.ViewInsight? ==> InsightShown(q) && q.currentInsight == Some(e.insight) && q.refreshHistory == n.refreshHistory)
      && (e.ClickTab? ==> q.activeTab == e.tab && q.currentInsight == n.currentInsight && q.refreshHistory == n.refreshHistory)
  {
  }

  /** An event the page can receive in state `n`: the Current Insight button can be clicked only while it is rendered. */
  predicate Possible(n: Nav, e: Event) {
    e.ClickTab? && e.tab == InsightTab ==> InsightButtonShown(n)
  }

  /** Every event of `es` is possible when it arrives. */
  predicate AllPossible(n: Nav, es: seq<Event>)
    decreases |es|
  {
    es == [] || (Possible(n, es[0]) && AllPossible(Step(n, es[0]), es[1..]))
  }

  /** The insight tab is active only with an insight to show. */
  predicate Coherent(n: Nav) {
    n.activeTab == InsightTab ==> n.currentInsight.Some?
  }

  /**
   * From a coherent state, any run of possible events keeps the page
   * coherent, so it always shows exactly one content panel.
   */
  lemma {:induction false} RunKeepsCoherent(n: Nav, es: seq<Event>)
    requires Coherent(n) && AllPossible(n, es)
    ensures Coherent(Run(n, es))
    ensures UploadShown(Run(n, es)) || HistoryShown(Run(n, es)) || InsightShown(Run(n, es))
    decreases |es|
  {
    if es != [] {
      RunKeepsCoherent(Step(n, es[0]), es[1..]);
    }
  }

  /** The number of successful uploads among `es`. */
  function Uploads(es: seq<Event>): nat
    decreases |es|
  {
    if es == [] then 0 else (if es[0].UploadSucceeded? then 1 else 0) + Uploads(es[1..])
  }

  /** The counter counts the successful uploads: it never goes down, and each upload, and nothing else, raises it by one. */
  lemma {:induction false} RunCountsUploads(n: Nav, es: seq<Event>)
    ensures Run(n, es).refreshHistory == n.refreshHistory + Uploads(es)
    ensures Run(n, es).refreshHistory >= n.refreshHistory
    decreases |es|
  {
    if es != [] {
      RunCountsUploads(Step(n, es[0]), es[1..]);
    }
  }

  /** The insight given to the last callback among `es`, or `current` when there was none. */
  function LastInsight(current: Option<Insight>, es: seq<Event>): Option<Insight>
    decreases |es|
  {
    if es == [] then current
    else
      var next := if es[0].ClickTab? then current else Some(es[0].insight);
      LastInsight(next, es[1..])
  }

  /** The insight on display is the one of the latest callback; once there is one, it is never cleared. */
  lemma {:induction false} RunKeepsLastInsight(n: Nav, es: seq<Event>)
    ensures Run(n, es).currentInsight == LastInsight(n.currentInsight, es)
    ensures n.currentInsight.Some? ==> Run(n, es).currentInsight.Some?
    decreases |es|
  {
    if es != [] {
      RunKeepsLastInsight(Step(n, es[0]), es[1..]);
    }
  }

  /** The page's three state variables. */
  class HomePage {
    var activeTab: Tab
    var currentInsight: Option<Insight>
    var refreshHistory: nat

    function Snapshot(): Nav
      reads this
    {
      Nav(activeTab, currentInsight, refreshHistory)
    }

    constructor()
      ensures Snapshot() == Initial
    {
      activeTab := UploadTab;
      currentInsight := None;
      refreshHistory := 0;
    }

    /** `handleUploadSuccess(insight)` */
    method HandleUploadSuccess(insight: Insight)
      modifies this
      ensures Snapshot() == Step(old(Snapshot()), UploadSucceeded(insight))
    {
      currentInsight := Some(insight);
      refreshHistory := refreshHistory + 1;
      activeTab := InsightTab;
    }

    /** `handleViewInsight(insight)` */
    method HandleViewInsight(insight: Insight)
      modifies this
      ensures Snapshot() == Step(old(Snapshot()), ViewInsight(insight))
    {
      currentInsight := Some(insight);
      activeTab := InsightTab;
    }

    /** A tab button's `onClick`. */
    method SelectTab(tab: Tab)
      modifies this
      ensures Snapshot() == Step(old(Snapshot()), ClickTab(tab))
    {
      activeTab := tab;
    }
  }
}

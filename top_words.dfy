/**
 * The word-frequency fallback summary `get_top_words(text, top_n)`: tokenize
 * the lower-cased text, drop the stop words, count with a `Counter`, take
 * `most_common(top_n)` and render `"Top {top_n} most frequent words: "`
 * followed by `"word (count)"` entries joined by `", "`.
 */
module TopWords {
  import opened Wrappers
  import opened PyStr
  import Tokenize

  /** The fixed stop-word set of the fallback. */
  const StopWords: set<string> := {
    "the", "and", "for", "are", "but", "not", "you", "all", "can", "had",
    "her", "was", "one", "our", "out", "day", "get", "has", "him", "his",
    "how", "man", "new", "now", "old", "see", "two", "way", "who", "boy",
    "did", "its", "let", "put", "say", "she", "too", "use"
  }

  /** `[word for word in words if word not in stop_words]`: stop words gone, other counts unchanged; `RemoveStopWordsKeepsOrder` gives the order. */
  function RemoveStopWords(ws: seq<string>): (r: seq<string>)
    ensures forall w :: w in r ==> w in ws && w !in StopWords
    ensures forall w :: w !in StopWords ==> multiset(r)[w] == multiset(ws)[w]
    decreases |ws|
  {
    if ws == [] then []
    else
      assert ws == [ws[0]] + ws[1..];
      (if ws[0] in StopWords then [] else [ws[0]]) + RemoveStopWords(ws[1..])
  }

  /**
   * The filtered token list the fallback counts: lower-case tokens of three
   * or more letters, none a stop word, each other token as often as in the
   * text.
   */
  function FilteredWords(text: string): (ws: seq<string>)
    ensures forall w :: w in ws ==> Tokenize.IsLowerWord(w) && w !in StopWords
    ensures forall w :: w !in StopWords ==> multiset(ws)[w] == multiset(Tokenize.Words(text))[w]
  {
    var ts := Tokenize.Words(text);
    var ws := RemoveStopWords(ts);
    assert forall w :: w in ws ==> w in ts && w !in StopWords;
    ws
  }

  /** A counter entry: a word and its count. */
  type Entry = (string, nat)

  function Keys(items: seq<Entry>): (ks: seq<string>)
    ensures |ks| == |items|
    ensures forall i :: 0 <= i < |items| ==> ks[i] == items[i].0
  {
    seq(|items|, i requires 0 <= i < |items| => items[i].0)
  }

  /** The position of the first occurrence of `w` in `ws`, or `|ws|` when `w` does not occur. */
  function IndexOf(ws: seq<string>, w: string): (k: nat)
    ensures k <= |ws|
    ensures k < |ws| <==> w in ws
    ensures k < |ws| ==> ws[k] == w
    ensures forall j :: 0 <= j < k ==> ws[j] != w
    decreases |ws|
  {
    if ws == [] then 0 else if ws[0] == w then 0 else 1 + IndexOf(ws[1..], w)
  }

  /**
   * The filter keeps the order of the words: two surviving words first occur
   * in the filtered list in the same order as they first occur in `ws`. This
   * is the order `Counter` inserts them in, and so the tie order of
   * `most_common`.
   */
  lemma RemoveStopWordsKeepsOrder(ws: seq<string>)
    ensures var r := RemoveStopWords(ws);
      forall a, b :: a in r && b in r ==> (IndexOf(r, a) < IndexOf(r, b) <==> IndexOf(ws, a) < IndexOf(ws, b))
  {
    var r := RemoveStopWords(ws);
    forall a, b | a in r && b in r
      ensures IndexOf(r, a) < IndexOf(r, b) <==> IndexOf(ws, a) < IndexOf(ws, b)
    {
      FilterKeepsPairOrder(ws, a, b);
    }
  }

  /** Two lists with the same first word keep their first-occurrence order in step when their tails do. */
  lemma SameHeadKeepsPairOrder(r: seq<string>, v: seq<string>, a: string, b: string)
    requires r != [] && v != [] && r[0] == v[0]
    requires a != r[0] && b != r[0] ==>
      (IndexOf(r[1..], a) < IndexOf(r[1..], b) <==> IndexOf(v[1..], a) < IndexOf(v[1..], b))
    ensures IndexOf(r, a) < IndexOf(r, b) <==> IndexOf(v, a) < IndexOf(v, b)
  {
  }

  /** Dropping a first word that is neither `a` nor `b` keeps their first-occurrence order. */
  lemma OtherHeadKeepsPairOrder(v: seq<string>, a: string, b: string)
    requires v != [] && a != v[0] && b != v[0]
    ensures IndexOf(v, a) < IndexOf(v, b) <==> IndexOf(v[1..], a) < IndexOf(v[1..], b)
  {
  }

  lemma {:induction false} FilterKeepsPairOrder(ws: seq<string>, a: string, b: string)
    requires a in RemoveStopWords(ws) && b in RemoveStopWords(ws)
    ensures IndexOf(RemoveStopWords(ws), a) < IndexOf(RemoveStopWords(ws), b) <==> IndexOf(ws, a) < IndexOf(ws, b)
    decreases |ws|
  {
    assert ws != [];
    var x := ws[0];
    var r := RemoveStopWords(ws);
    var r' := RemoveStopWords(ws[1..]);
    if x in StopWords {
      assert r == r';
      assert a !in StopWords && b !in StopWords;
      FilterKeepsPairOrder(ws[1..], a, b);
      OtherHeadKeepsPairOrder(ws, a, b);
    } else {
      assert r == [x] + r';
      assert r[1..] == r';
      if a != x && b != x {
        FilterKeepsPairOrder(ws[1..], a, b);
      }
      SameHeadKeepsPairOrder(r, ws, a, b);
    }
  }

  /** Every word of `ws`, and nothing else, has an entry. */
  ghost predicate SameKeys(ws: seq<string>, items: seq<Entry>) {
    forall w :: w in ws <==> w in Keys(items)
  }

  /** Each entry carries its word's number of occurrences in `ws`. */
  ghost predicate RightCounts(ws: seq<string>, items: seq<Entry>) {
    forall i :: 0 <= i < |items| ==> items[i].1 == multiset(ws)[items[i].0]
  }

  /** The entries are in order of their words' first occurrence in `ws` (so no word has two). */
  ghost predicate FirstSeenOrder(ws: seq<string>, items: seq<Entry>) {
    forall i, j :: 0 <= i < j < |items| ==> IndexOf(ws, items[i].0) < IndexOf(ws, items[j].0)
  }

  /**
   * `items` is what iterating `Counter(ws).items()` yields: every distinct word
   * of `ws` once, with its number of occurrences, in order of first occurrence.
   */
  ghost predicate IsCounterOf(ws: seq<string>, items: seq<Entry>) {
    SameKeys(ws, items) && RightCounts(ws, items) && FirstSeenOrder(ws, items)
  }

  /**
   * `counter[w] = counter.get(w, 0) + 1` on an insertion-ordered dictionary:
   * a word already present keeps its place and gains one, a new word goes last.
   */
  function Bump(items: seq<Entry>, w: string): seq<Entry> {
    var p := IndexOf(Keys(items), w);
    if p < |items| then items[p := (w, items[p].1 + 1)] else items + [(w, 1)]
  }

  /**
   * `Counter(ws)`: one pass over the words, bumping each. The result has
   * every distinct word once, with its number of occurrences, in order of
   * first occurrence.
   */
  function Tally(ws: seq<string>): (items: seq<Entry>)
    ensures IsCounterOf(ws, items)
    decreases |ws|
  {
    if ws == [] then []
    else
      var v := ws[..|ws| - 1];
      var w := ws[|ws| - 1];
      var counted := Tally(v);
      assert ws == v + [w];
      if IndexOf(Keys(counted), w) < |counted| then
        BumpExisting(v, w, counted);
        Bump(counted, w)
      else
        BumpNew(v, w, counted);
        Bump(counted, w)
  }

  lemma IndexOfAppend(v: seq<string>, w: string, x: string)
    ensures x in v ==> IndexOf(v + [w], x) == IndexOf(v, x)
    ensures x !in v && x == w ==> IndexOf(v + [w], x) == |v|
  {
    var k := IndexOf(v + [w], x);
    if x in v {
      var j := IndexOf(v, x);
      assert (v + [w])[j] == x;
      assert k <= j;
      assert v[k] == (v + [w])[k];
    }
  }

  lemma MultisetSnoc(v: seq<string>, w: string)
    ensures multiset(v + [w])[w] == multiset(v)[w] + 1
    ensures forall x :: x != w ==> multiset(v + [w])[x] == multiset(v)[x]
  {
    assert multiset(v + [w]) == multiset(v) + multiset{w};
  }

  /** Under first-occurrence order, distinct positions hold distinct words. */
  lemma DistinctKeys(ws: seq<string>, items: seq<Entry>, i: nat, j: nat)
    requires FirstSeenOrder(ws, items)
    requires i < |items| && j < |items| && i != j
    ensures items[i].0 != items[j].0
  {
    if i < j {
      assert IndexOf(ws, items[i].0) < IndexOf(ws, items[j].0);
    } else {
      assert IndexOf(ws, items[j].0) < IndexOf(ws, items[i].0);
    }
  }

  lemma ExistingKeys(v: seq<string>, w: string, items: seq<Entry>, p: nat)
    requires SameKeys(v, items) && p < |items| && items[p].0 == w
    ensures SameKeys(v + [w], items[p := (w, items[p].1 + 1)])
  {
    var r := items[p := (w, items[p].1 + 1)];
    assert Keys(r) == Keys(items);
    assert w in Keys(items);
    forall x ensures x in v + [w] <==> x in Keys(r) {
      assert x in v + [w] <==> x in v || x == w;
    }
  }

  lemma ExistingCounts(v: seq<string>, w: string, items: seq<Entry>, p: nat)
    requires RightCounts(v, items) && FirstSeenOrder(v, items) && p < |items| && items[p].0 == w
    ensures RightCounts(v + [w], items[p := (w, items[p].1 + 1)])
  {
    var r := items[p := (w, items[p].1 + 1)];
    MultisetSnoc(v, w);
    forall i | 0 <= i < |r| ensures r[i].1 == multiset(v + [w])[r[i].0] {
      if i != p {
        DistinctKeys(v, items, i, p);
        assert r[i] == items[i];
      }
    }
  }

  lemma ExistingOrder(v: seq<string>, w: string, items: seq<Entry>, p: nat)
    requires SameKeys(v, items) && FirstSeenOrder(v, items) && p < |items| && items[p].0 == w
    ensures FirstSeenOrder(v + [w], items[p := (w, items[p].1 + 1)])
  {
    var r := items[p := (w, items[p].1 + 1)];
    forall i, j | 0 <= i < j < |r| ensures IndexOf(v + [w], r[i].0) < IndexOf(v + [w], r[j].0) {
      assert r[i].0 == items[i].0 && r[j].0 == items[j].0;
      assert Keys(items)[i] == items[i].0 && Keys(items)[j] == items[j].0;
      IndexOfAppend(v, w, items[i].0);
      IndexOfAppend(v, w, items[j].0);
    }
  }

  /** Bumping a word that already has an entry. */
  lemma BumpExisting(v: seq<string>, w: string, items: seq<Entry>)
    requires IsCounterOf(v, items)
    requires IndexOf(Keys(items), w) < |items|
    ensures IsCounterOf(v + [w], Bump(items, w))
  {
    var p := IndexOf(Keys(items), w);
    ExistingKeys(v, w, items, p);
    ExistingCounts(v, w, items, p);
    ExistingOrder(v, w, items, p);
  }

  lemma NewKeys(v: seq<string>, w: string, items: seq<Entry>)
    requires SameKeys(v, items)
    ensures SameKeys(v + [w], items + [(w, 1)])
  {
    var r := items + [(w, 1)];
    assert Keys(r) == Keys(items) + [w];
    forall x ensures x in v + [w] <==> x in Keys(r) {
      assert x in v + [w] <==> x in v || x == w;
      assert x in Keys(r) <==> x in Keys(items) || x == w;
    }
  }

  lemma NewCounts(v: seq<string>, w: string, items: seq<Entry>)
    requires SameKeys(v, items) && RightCounts(v, items) && w !in v
    ensures RightCounts(v + [w], items + [(w, 1)])
  {
    var r := items + [(w, 1)];
    MultisetSnoc(v, w);
    forall i | 0 <= i < |r| ensures r[i].1 == multiset(v + [w])[r[i].0] {
      if i < |items| {
        assert r[i] == items[i];
        assert Keys(items)[i] == items[i].0;
      }
    }
  }

  lemma NewOrder(v: seq<string>, w: string, items: seq<Entry>)
    requires SameKeys(v, items) && FirstSeenOrder(v, items) && w !in v
    ensures FirstSeenOrder(v + [w], items + [(w, 1)])
  {
    var r := items + [(w, 1)];
    IndexOfAppend(v, w, w);
    forall i, j | 0 <= i < j < |r| ensures IndexOf(v + [w], r[i].0) < IndexOf(v + [w], r[j].0) {
      assert r[i] == items[i] && Keys(items)[i] == items[i].0;
      IndexOfAppend(v, w, items[i].0);
      if j < |items| {
        assert r[j] == items[j] && Keys(items)[j] == items[j].0;
        IndexOfAppend(v, w, items[j].0);
      }
    }
  }

  /** Bumping a word seen for the first time. */
  lemma BumpNew(v: seq<string>, w: string, items: seq<Entry>)
    requires IsCounterOf(v, items)
    requires IndexOf(Keys(items), w) == |items|
    ensures IsCounterOf(v + [w], Bump(items, w))
  {
    assert w !in v;
    NewKeys(v, w, items);
    NewCounts(v, w, items);
    NewOrder(v, w, items);
  }

  /**
   * `a` comes before `b` in `most_common`: a higher count, or the same count
   * and an earlier first occurrence in `ws`.
   */
  predicate Precedes(ws: seq<string>, a: Entry, b: Entry) {
    a.1 > b.1 || (a.1 == b.1 && IndexOf(ws, a.0) < IndexOf(ws, b.0))
  }

  predicate RankedBy(ws: seq<string>, r: seq<Entry>) {
    forall i, j :: 0 <= i < j < |r| ==> Precedes(ws, r[i], r[j])
  }

  /** Places `x` in front of the first entry whose count does not exceed its own. */
  function InsertRanked(x: Entry, r: seq<Entry>): (r': seq<Entry>)
    ensures multiset(r') == multiset(r) + multiset{x}
    decreases |r|
  {
    if r == [] || r[0].1 <= x.1 then [x] + r
    else
      assert r == [r[0]] + r[1..];
      [r[0]] + InsertRanked(x, r[1..])
  }

  /**
   * `sorted(items, key=count, reverse=True)`, which is stable: entries with
   * equal counts keep their order in `items`.
   */
  function SortByCount(items: seq<Entry>): (r: seq<Entry>)
    ensures multiset(r) == multiset(items)
    decreases |items|
  {
    if items == [] then []
    else
      assert items == [items[0]] + items[1..];
      InsertRanked(items[0], SortByCount(items[1..]))
  }

  lemma RankedCons(ws: seq<string>, a: Entry, t: seq<Entry>)
    requires RankedBy(ws, t)
    requires forall k :: 0 <= k < |t| ==> Precedes(ws, a, t[k])
    ensures RankedBy(ws, [a] + t)
  {
    var r := [a] + t;
    forall i, j | 0 <= i < j < |r| ensures Precedes(ws, r[i], r[j]) {
      if i == 0 {
        assert r[j] == t[j - 1];
      } else {
        assert r[i] == t[i - 1] && r[j] == t[j - 1];
      }
    }
  }

  lemma {:induction false} InsertRankedKeepsRank(ws: seq<string>, x: Entry, r: seq<Entry>)
    requires RankedBy(ws, r)
    requires forall y :: y in r ==> IndexOf(ws, x.0) < IndexOf(ws, y.0)
    ensures RankedBy(ws, InsertRanked(x, r))
    decreases |r|
  {
    if r == [] || r[0].1 <= x.1 {
      forall k | 0 <= k < |r| ensures Precedes(ws, x, r[k]) {
        assert r[k] in r;
        if k > 0 {
          assert Precedes(ws, r[0], r[k]);
        }
      }
      RankedCons(ws, x, r);
    } else {
      var tail := r[1..];
      assert RankedBy(ws, tail) by {
        forall i, j | 0 <= i < j < |tail| ensures Precedes(ws, tail[i], tail[j]) {
          assert tail[i] == r[i + 1] && tail[j] == r[j + 1];
        }
      }
      forall y | y in tail ensures IndexOf(ws, x.0) < IndexOf(ws, y.0) {
        assert y in r;
      }
      InsertRankedKeepsRank(ws, x, tail);
      var t := InsertRanked(x, tail);
      forall k | 0 <= k < |t| ensures Precedes(ws, r[0], t[k]) {
        assert t[k] in multiset(t);
        if t[k] != x {
          assert t[k] in multiset(tail);
          var j :| 0 <= j < |tail| && tail[j] == t[k];
          assert Precedes(ws, r[0], r[j + 1]);
        }
      }
      RankedCons(ws, r[0], t);
    }
  }

  /** The stable sort of a first-occurrence-ordered counter is ranked by count, ties by first occurrence. */
  lemma {:induction false} SortByCountRanked(ws: seq<string>, items: seq<Entry>)
    requires forall i, j :: 0 <= i < j < |items| ==> IndexOf(ws, items[i].0) < IndexOf(ws, items[j].0)
    ensures RankedBy(ws, SortByCount(items))
    decreases |items|
  {
    if items != [] {
      var tail := items[1..];
      SortByCountRanked(ws, tail);
      var s := SortByCount(tail);
      forall y | y in s ensures IndexOf(ws, items[0].0) < IndexOf(ws, y.0) {
        assert y in multiset(tail);
        var j :| 0 <= j < |tail| && tail[j] == y;
        assert items[j + 1] == y;
      }
      InsertRankedKeepsRank(ws, items[0], s);
    }
  }

  /** `Counter.most_common(n)`: the first `n` entries of the stable sort by descending count. */
  function MostCommon(items: seq<Entry>, n: nat): (top: seq<Entry>)
    ensures |top| == if n < |items| then n else |items|
  {
    var s := SortByCount(items);
    assert |s| == |multiset(s)| == |items|;
    s[..if n < |s| then n else |s|]
  }

  /** The entries `get_top_words` reports for a text: at most `top_n`, and none exactly when `top_n` is 0 or no token survives the stop-word filter. */
  function TopEntries(text: string, topN: nat): (top: seq<Entry>)
    ensures |top| <= topN
    ensures top == [] <==> topN == 0 || FilteredWords(text) == []
  {
    MostCommonEmpty(FilteredWords(text), topN);
    MostCommon(Tally(FilteredWords(text)), topN)
  }

  /** Reordering a counter keeps its entries: each is a word of `ws` with its count, and each word of `ws` has one. */
  lemma ReorderedCounter(ws: seq<string>, items: seq<Entry>, s: seq<Entry>)
    requires IsCounterOf(ws, items)
    requires multiset(s) == multiset(items)
    ensures forall q :: 0 <= q < |s| ==> s[q].0 in ws && s[q].1 == multiset(ws)[s[q].0]
    ensures forall w :: w in ws ==> (w, multiset(ws)[w]) in s
  {
    forall q | 0 <= q < |s| ensures s[q].0 in ws && s[q].1 == multiset(ws)[s[q].0] {
      assert s[q] in multiset(items);
      var p :| 0 <= p < |items| && items[p] == s[q];
      assert Keys(items)[p] == items[p].0;
    }
    forall w | w in ws ensures (w, multiset(ws)[w]) in s {
      assert w in Keys(items);
      var p :| 0 <= p < |items| && Keys(items)[p] == w;
      assert items[p] in multiset(s);
    }
  }

  /**
   * What `Counter(ws).most_common(n)` promises of `top`: at most `n` entries,
   * fewer only when every word of `ws` is reported; each entry a word of `ws`
   * with its number of occurrences; ranked by count with ties in
   * first-occurrence order; and every unreported word ranked below every
   * reported one.
   */
  ghost predicate IsMostCommon(ws: seq<string>, n: nat, top: seq<Entry>) {
    && |top| <= n
    && (|top| < n ==> forall w :: w in ws ==> w in Keys(top))
    && (forall i :: 0 <= i < |top| ==> top[i].0 in ws && top[i].1 == multiset(ws)[top[i].0])
    && RankedBy(ws, top)
    && (forall w, i :: w in ws && w !in Keys(top) && 0 <= i < |top| ==>
          Precedes(ws, top[i], (w, multiset(ws)[w])))
  }

  /** A prefix of a ranked list of every word with its count leaves out only words ranked below it. */
  lemma PrefixLeavesOutLower(ws: seq<string>, s: seq<Entry>, m: nat)
    requires m <= |s|
    requires RankedBy(ws, s)
    requires forall w :: w in ws ==> (w, multiset(ws)[w]) in s
    ensures forall w, i :: w in ws && w !in Keys(s[..m]) && 0 <= i < m ==>
      Precedes(ws, s[..m][i], (w, multiset(ws)[w]))
  {
    var top := s[..m];
    forall w, i | w in ws && w !in Keys(top) && 0 <= i < m
      ensures Precedes(ws, top[i], (w, multiset(ws)[w]))
    {
      var q :| 0 <= q < |s| && s[q] == (w, multiset(ws)[w]);
      assert forall k :: 0 <= k < m ==> Keys(top)[k] == s[k].0;
      assert m <= q;
      assert top[i] == s[i];
    }
  }

  /** The first `min(n, |s|)` entries of a ranked list of every word of `ws` with its count are what `most_common(n)` promises. */
  lemma RankedPrefixIsMostCommon(ws: seq<string>, n: nat, s: seq<Entry>)
    requires RankedBy(ws, s)
    requires forall q :: 0 <= q < |s| ==> s[q].0 in ws && s[q].1 == multiset(ws)[s[q].0]
    requires forall w :: w in ws ==> (w, multiset(ws)[w]) in s
    ensures IsMostCommon(ws, n, s[..if n < |s| then n else |s|])
  {
    var m := if n < |s| then n else |s|;
    var top := s[..m];
    assert RankedBy(ws, top) by {
      forall i, j | 0 <= i < j < m ensures Precedes(ws, top[i], top[j]) {
        assert top[i] == s[i] && top[j] == s[j];
      }
    }
    forall i | 0 <= i < m ensures top[i].0 in ws && top[i].1 == multiset(ws)[top[i].0] {
      assert top[i] == s[i];
    }
    if m < n {
      assert top == s;
      forall w | w in ws ensures w in Keys(top) {
        var q :| 0 <= q < |s| && s[q] == (w, multiset(ws)[w]);
        assert Keys(top)[q] == w;
      }
    }
    PrefixLeavesOutLower(ws, s, m);
  }

  /** `Counter(ws).most_common(n)` keeps every promise of `IsMostCommon`. */
  lemma MostCommonSpec(ws: seq<string>, n: nat)
    ensures IsMostCommon(ws, n, MostCommon(Tally(ws), n))
  {
    var items := Tally(ws);
    SortByCountRanked(ws, items);
    var s := SortByCount(items);
    assert |s| == |multiset(s)| == |items|;
    ReorderedCounter(ws, items, s);
    RankedPrefixIsMostCommon(ws, n, s);
  }

  /** `f"{word} ({count})"`: the word, then the count's digits in parentheses. */
  function FormatEntry(e: Entry): (s: string)
    ensures |s| == |e.0| + |NatToString(e.1)| + 3
    ensures s[..|e.0|] == e.0 && s[|e.0|..|e.0| + 2] == " (" && s[|s| - 1] == ')'
    ensures Numeral(s[|e.0| + 2..|s| - 1]) && DigitsValue(s[|e.0| + 2..|s| - 1]) == e.1
  {
    var digits := NatToString(e.1);
    var s := e.0 + " (" + digits + ")";
    assert s[|e.0| + 2..|s| - 1] == digits;
    NatToStringRoundTrip(e.1);
    s
  }

  /** `", ".join(f"{word} ({count})" for word, count in es)` */
  function JoinEntries(es: seq<Entry>): (s: string)
    ensures s == [] <==> es == []
    decreases |es|
  {
    if es == [] then []
    else if |es| == 1 then FormatEntry(es[0])
    else FormatEntry(es[0]) + ", " + JoinEntries(es[1..])
  }

  const ReportTail: string := " most frequent words: "

  /** The fixed head of every report: `f"Top {top_n} most frequent words: "`. */
  function ReportHeader(n: nat): (h: string)
    ensures "Top " <= h && EndsWith(h, ReportTail) && |h| > 4 + |ReportTail|
    ensures Numeral(h[4..|h| - |ReportTail|]) && DigitsValue(h[4..|h| - |ReportTail|]) == n
  {
    var h := "Top " + NatToString(n) + ReportTail;
    assert h[4..|h| - |ReportTail|] == NatToString(n);
    NatToStringRoundTrip(n);
    h
  }

  /** The report: always starts with the header, and is the bare header exactly when nothing is listed. */
  function Report(n: nat, es: seq<Entry>): (s: string)
    ensures ReportHeader(n) <= s
    ensures s == ReportHeader(n) <==> es == []
  {
    ReportHeader(n) + JoinEntries(es)
  }

  /**
   * `get_top_words(text, top_n)`: the header, alone exactly when `top_n` is 0
   * or no token survives the stop-word filter.
   */
  function GetTopWords(text: string, topN: nat): (s: string)
    ensures ReportHeader(topN) <= s
    ensures s == ReportHeader(topN) <==> topN == 0 || FilteredWords(text) == []
  {
    Report(topN, TopEntries(text, topN))
  }

  // Reading a report back, to show that it determines `top_n` and the entries.

  function LowerPrefix(s: string): (k: nat)
    ensures k <= |s|
    ensures forall i :: 0 <= i < k ==> IsAsciiLower(s[i])
    ensures k == |s| || !IsAsciiLower(s[k])
    decreases |s|
  {
    if s != [] && IsAsciiLower(s[0]) then 1 + LowerPrefix(s[1..]) else 0
  }

  function DigitPrefix(s: string): (k: nat)
    ensures k <= |s|
    ensures forall i :: 0 <= i < k ==> IsDigit(s[i])
    ensures k == |s| || !IsDigit(s[k])
    decreases |s|
  {
    if s != [] && IsDigit(s[0]) then 1 + DigitPrefix(s[1..]) else 0
  }

  /** Reads a `count)` piece, the count written as `str` writes it, off the front of `s`. */
  function ParseCount(s: string): (r: Option<(nat, string)>)
    ensures r.Some? ==> |r.value.1| < |s|
  {
    var d := DigitPrefix(s);
    if d == 0 || d == |s| || s[d] != ')' || !Numeral(s[..d]) then None
    else Some((DigitsValue(s[..d]), s[d + 1..]))
  }

  /** Reads one `word (count)` entry off the front of `s`, returning it and what follows. */
  function ParseEntry(s: string): (r: Option<(Entry, string)>)
    ensures r.Some? ==> |r.value.1| < |s|
  {
    var k := LowerPrefix(s);
    if k == 0 || |s| - k < 2 || s[k..k + 2] != " (" then None
    else
      match ParseCount(s[k + 2..])
      case None => None
      case Some((c, rest)) => Some(((s[..k], c), rest))
  }

  /** Reads a non-empty `", "`-separated list of entries. */
  function ParseEntryList(s: string): Option<seq<Entry>>
    decreases |s|
  {
    match ParseEntry(s)
    case None => None
    case Some((e, rest)) =>
      if rest == [] then Some([e])
      else if |rest| >= 2 && rest[..2] == ", " then
        match ParseEntryList(rest[2..])
        case None => None
        case Some(es) => Some([e] + es)
      else None
  }

  /** Reads a report back into `top_n` and its entries. */
  function ParseReport(s: string): Option<(nat, seq<Entry>)> {
    if |s| < 4 || s[..4] != "Top " then None
    else
      var t := s[4..];
      var d := DigitPrefix(t);
      var rest := t[d..];
      if d == 0 || !Numeral(t[..d]) || |rest| < |ReportTail| || rest[..|ReportTail|] != ReportTail then None
      else
        match ParseBody(rest[|ReportTail|..])
        case None => None
        case Some(es) => Some((DigitsValue(t[..d]), es))
  }

  /** Reads what follows the header: nothing, or a `", "`-separated list of entries. */
  function ParseBody(body: string): Option<seq<Entry>> {
    if body == [] then Some([]) else ParseEntryList(body)
  }

  /** A word the report can carry unambiguously: non-empty, lower-case letters only. */
  predicate IsReportWord(w: string) {
    w != [] && forall k :: 0 <= k < |w| ==> IsAsciiLower(w[k])
  }

  lemma LowerPrefixOf(w: string, rest: string)
    requires forall k :: 0 <= k < |w| ==> IsAsciiLower(w[k])
    requires rest == [] || !IsAsciiLower(rest[0])
    ensures LowerPrefix(w + rest) == |w|
  {
    var s := w + rest;
    var k := LowerPrefix(s);
    assert forall i :: 0 <= i < |w| ==> s[i] == w[i];
    assert rest != [] ==> s[|w|] == rest[0];
  }

  lemma DigitPrefixOf(ds: string, rest: string)
    requires forall k :: 0 <= k < |ds| ==> IsDigit(ds[k])
    requires rest == [] || !IsDigit(rest[0])
    ensures DigitPrefix(ds + rest) == |ds|
  {
    var s := ds + rest;
    var k := DigitPrefix(s);
    assert forall i :: 0 <= i < |ds| ==> s[i] == ds[i];
    assert rest != [] ==> s[|ds|] == rest[0];
  }

  lemma ParseCountOf(n: nat, rest: string)
    ensures ParseCount(NatToString(n) + (")" + rest)) == Some((n, rest))
  {
    var num := NatToString(n);
    var s := num + (")" + rest);
    DigitPrefixOf(num, ")" + rest);
    assert s[..|num|] == num;
    assert s[|num|] == ')';
    assert s[|num| + 1..] == rest;
    NatToStringRoundTrip(n);
  }

  lemma ThreeParts(a: string, b: string, c: string)
    ensures var s := a + (b + c);
      s[..|a|] == a && s[|a|..|a| + |b|] == b && s[|a| + |b|..] == c
  {
  }

  lemma FormatEntryShape(e: Entry, rest: string)
    ensures FormatEntry(e) + rest == e.0 + (" (" + (NatToString(e.1) + (")" + rest)))
  {
  }

  lemma ParseFormattedEntry(e: Entry, rest: string)
    requires IsReportWord(e.0)
    ensures ParseEntry(FormatEntry(e) + rest) == Some((e, rest))
  {
    var w := e.0;
    var x := NatToString(e.1) + (")" + rest);
    var s := w + (" (" + x);
    FormatEntryShape(e, rest);
    LowerPrefixOf(w, " (" + x);
    ThreeParts(w, " (", x);
    ParseCountOf(e.1, rest);
  }

  lemma ParseEntryListCons(s: string, e: Entry, tail: string, es: seq<Entry>)
    requires ParseEntry(s) == Some((e, ", " + tail))
    requires ParseEntryList(tail) == Some(es)
    ensures ParseEntryList(s) == Some([e] + es)
  {
    var rest := ", " + tail;
    assert rest[..2] == ", " && rest[2..] == tail;
  }

  lemma ParseSingleEntry(e: Entry)
    requires IsReportWord(e.0)
    ensures ParseEntryList(FormatEntry(e)) == Some([e])
  {
    ParseFormattedEntry(e, []);
    assert FormatEntry(e) + [] == FormatEntry(e);
  }

  lemma JoinEntriesCons(e: Entry, es: seq<Entry>)
    requires es != []
    ensures JoinEntries([e] + es) == FormatEntry(e) + (", " + JoinEntries(es))
  {
    var all := [e] + es;
    assert all[0] == e && all[1..] == es;
  }

  lemma ParseJoinedCons(e: Entry, es: seq<Entry>)
    requires IsReportWord(e.0) && es != []
    requires ParseEntryList(JoinEntries(es)) == Some(es)
    ensures ParseEntryList(JoinEntries([e] + es)) == Some([e] + es)
  {
    var tail := JoinEntries(es);
    JoinEntriesCons(e, es);
    ParseFormattedEntry(e, ", " + tail);
    ParseEntryListCons(JoinEntries([e] + es), e, tail, es);
  }

  /** A non-empty list of entries, joined, reads back as the same list. */
  lemma {:induction false} ParseJoinedEntries(es: seq<Entry>)
    requires es != []
    requires forall i :: 0 <= i < |es| ==> IsReportWord(es[i].0)
    ensures ParseEntryList(JoinEntries(es)) == Some(es)
    decreases |es|
  {
    if |es| == 1 {
      ParseSingleEntry(es[0]);
      assert es == [es[0]];
    } else {
      var t := es[1..];
      forall i | 0 <= i < |t| ensures IsReportWord(t[i].0) {
        assert t[i] == es[i + 1];
      }
      ParseJoinedEntries(t);
      ParseJoinedCons(es[0], t);
      assert [es[0]] + t == es;
    }
  }

  lemma TwoParts(a: string, b: string)
    ensures (a + b)[..|a|] == a && (a + b)[|a|..] == b
  {
  }

  lemma ReportShape(n: nat, es: seq<Entry>)
    ensures Report(n, es) == "Top " + (NatToString(n) + (ReportTail + JoinEntries(es)))
  {
  }

  /** A report reads back as the `top_n` and the entries it was made from. */
  lemma ReportRoundTrip(n: nat, es: seq<Entry>)
    requires forall i :: 0 <= i < |es| ==> IsReportWord(es[i].0)
    ensures ParseReport(Report(n, es)) == Some((n, es))
  {
    var num := NatToString(n);
    var body := JoinEntries(es);
    var rest := ReportTail + body;
    ReportShape(n, es);
    TwoParts("Top ", num + rest);
    TwoParts(num, rest);
    TwoParts(ReportTail, body);
    DigitPrefixOf(num, rest);
    NatToStringRoundTrip(n);
    if es != [] {
      ParseJoinedEntries(es);
    }
    assert ParseBody(body) == Some(es);
  }

  /** A count the parser accepts is written exactly as `str` writes it. */
  lemma ParseCountInverse(s: string)
    requires ParseCount(s).Some?
    ensures s == NatToString(ParseCount(s).value.0) + (")" + ParseCount(s).value.1)
  {
    var d := DigitPrefix(s);
    NumeralUnique(s[..d]);
    assert s == s[..d] + (")" + s[d + 1..]);
  }

  /** An entry the parser accepts is a report word formatted as `f"{word} ({count})"`. */
  lemma ParseEntryInverse(s: string)
    requires ParseEntry(s).Some?
    ensures var r := ParseEntry(s).value;
      IsReportWord(r.0.0) && s == FormatEntry(r.0) + r.1
  {
    var k := LowerPrefix(s);
    var t := s[k + 2..];
    var c := ParseCount(t).value;
    var r := ParseEntry(s).value;
    assert r == ((s[..k], c.0), c.1);
    ParseCountInverse(t);
    EntryPieces(s, k);
    FormatEntryShape(r.0, r.1);
  }

  lemma EntryPieces(s: string, k: nat)
    requires k + 2 <= |s| && s[k..k + 2] == " ("
    ensures s == s[..k] + (" (" + s[k + 2..])
  {
    assert s[k..] == s[k..k + 2] + s[k + 2..];
    assert s == s[..k] + s[k..];
  }

  /** One step of the list parser: a last entry, or an entry, `", "` and the rest of the list. */
  lemma ParseEntryListStep(s: string)
    requires ParseEntryList(s).Some?
    ensures ParseEntry(s).Some?
    ensures var r := ParseEntry(s).value;
      || (r.1 == [] && ParseEntryList(s).value == [r.0])
      || (&& |r.1| >= 2 && r.1[..2] == ", "
          && ParseEntryList(r.1[2..]).Some?
          && ParseEntryList(s).value == [r.0] + ParseEntryList(r.1[2..]).value)
  {
  }

  lemma CommaSplit(rest: string)
    requires |rest| >= 2 && rest[..2] == ", "
    ensures rest == ", " + rest[2..]
  {
    assert rest == rest[..2] + rest[2..];
  }

  /** A list the parser accepts is the `", "`-join of the formatted entries it reads. */
  lemma {:induction false} ParseEntryListInverse(s: string)
    requires ParseEntryList(s).Some?
    ensures var es := ParseEntryList(s).value;
      && es != []
      && (forall i :: 0 <= i < |es| ==> IsReportWord(es[i].0))
      && s == JoinEntries(es)
    decreases |s|
  {
    ParseEntryListStep(s);
    ParseEntryInverse(s);
    var r := ParseEntry(s).value;
    var e := r.0;
    if r.1 != [] {
      var tail := r.1[2..];
      CommaSplit(r.1);
      ParseEntryListInverse(tail);
      var es := ParseEntryList(tail).value;
      JoinEntriesCons(e, es);
      forall i | 0 <= i < |[e] + es| ensures IsReportWord(([e] + es)[i].0) {
        if i > 0 {
          assert ([e] + es)[i] == es[i - 1];
        }
      }
    }
  }

  /** What follows a report's header, when the parser accepts it, is the joined entries it reads. */
  lemma ParseBodyInverse(body: string)
    requires ParseBody(body).Some?
    ensures var es := ParseBody(body).value;
      (forall i :: 0 <= i < |es| ==> IsReportWord(es[i].0)) && body == JoinEntries(es)
  {
    if body != [] {
      ParseEntryListInverse(body);
    }
  }

  lemma ReassembleReport(s: string, d: nat)
    requires |s| >= 4 + d + |ReportTail| && s[..4] == "Top "
    requires s[4..][d..][..|ReportTail|] == ReportTail
    ensures s == "Top " + (s[4..][..d] + (ReportTail + s[4..][d..][|ReportTail|..]))
  {
    var t := s[4..];
    var rest := t[d..];
    assert rest == ReportTail + rest[|ReportTail|..];
    assert t == t[..d] + rest;
    assert s == s[..4] + t;
  }

  /** A text the parser accepts is the report of what it reads: the converse of `ReportRoundTrip`. */
  lemma ParseReportInverse(s: string)
    requires ParseReport(s).Some?
    ensures var r := ParseReport(s).value;
      && (forall i :: 0 <= i < |r.1| ==> IsReportWord(r.1[i].0))
      && s == Report(r.0, r.1)
  {
    var t := s[4..];
    var d := DigitPrefix(t);
    var body := t[d..][|ReportTail|..];
    var r := ParseReport(s).value;
    assert ParseBody(body) == Some(r.1) && r.0 == DigitsValue(t[..d]);
    NumeralUnique(t[..d]);
    ParseBodyInverse(body);
    ReassembleReport(s, d);
    ReportShape(r.0, r.1);
  }

  /**
   * For entries whose words are report words, a text is the report of `n`
   * and `es` exactly when it parses as them: the layout of the report is
   * the parser's grammar, and nothing else meets it.
   */
  lemma ReportParseIff(s: string, n: nat, es: seq<Entry>)
    requires forall i :: 0 <= i < |es| ==> IsReportWord(es[i].0)
    ensures ParseReport(s) == Some((n, es)) <==> s == Report(n, es)
  {
    if ParseReport(s) == Some((n, es)) {
      ParseReportInverse(s);
    }
    if s == Report(n, es) {
      ReportRoundTrip(n, es);
    }
  }

  /**
   * Each reported entry is a lower-case token of at least three letters that
   * is not a stop word, with its number of occurrences among the tokens of
   * the text; beyond that, the entries are what `most_common(top_n)` promises
   * of the filtered tokens.
   */
  lemma TopEntriesSpec(text: string, topN: nat)
    ensures var top := TopEntries(text, topN);
      && IsMostCommon(FilteredWords(text), topN, top)
      && (forall i :: 0 <= i < |top| ==>
            && top[i].0 !in StopWords
            && Tokenize.IsLowerWord(top[i].0)
            && top[i].1 == multiset(Tokenize.Words(text))[top[i].0])
  {
    var ws := FilteredWords(text);
    var top := TopEntries(text, topN);
    MostCommonSpec(ws, topN);
    forall i | 0 <= i < |top|
      ensures top[i].0 !in StopWords && Tokenize.IsLowerWord(top[i].0)
      ensures top[i].1 == multiset(Tokenize.Words(text))[top[i].0]
    {
      assert top[i].0 in ws;
    }
  }

  /**
   * The reported entries run from the highest count down, and entries with
   * the same count appear in the order their words first occur among the
   * tokens of the text.
   */
  lemma TopEntriesTextOrder(text: string, topN: nat)
    ensures var top := TopEntries(text, topN); var ts := Tokenize.Words(text);
      forall i, j :: 0 <= i < j < |top| ==>
        top[i].1 > top[j].1 || (top[i].1 == top[j].1 && IndexOf(ts, top[i].0) < IndexOf(ts, top[j].0))
  {
    var top := TopEntries(text, topN);
    var ts := Tokenize.Words(text);
    var ws := FilteredWords(text);
    MostCommonSpec(ws, topN);
    assert RankedBy(ws, top);
    forall i, j | 0 <= i < j < |top|
      ensures top[i].1 > top[j].1 || (top[i].1 == top[j].1 && IndexOf(ts, top[i].0) < IndexOf(ts, top[j].0))
    {
      assert Precedes(ws, top[i], top[j]);
      assert top[i].0 in ws && top[j].0 in ws;
      FilterKeepsPairOrder(ts, top[i].0, top[j].0);
    }
  }

  lemma MostCommonEmpty(ws: seq<string>, n: nat)
    ensures MostCommon(Tally(ws), n) == [] <==> n == 0 || ws == []
  {
    if ws != [] {
      var v := ws[..|ws| - 1];
      var items := Tally(v);
      assert Tally(ws) == Bump(items, ws[|ws| - 1]);
    }
  }

  /** `get_top_words(text, top_n)` reads back as `top_n` and the entries it reports. */
  lemma GetTopWordsRoundTrip(text: string, topN: nat)
    ensures ParseReport(GetTopWords(text, topN)) == Some((topN, TopEntries(text, topN)))
  {
    var top := TopEntries(text, topN);
    TopEntriesSpec(text, topN);
    forall i | 0 <= i < |top| ensures IsReportWord(top[i].0) {
    }
    ReportRoundTrip(topN, top);
  }

  /** The fallback text is the only text that reads back as its `top_n` and its entries. */
  lemma GetTopWordsUnique(text: string, topN: nat, s: string)
    requires ParseReport(s) == Some((topN, TopEntries(text, topN)))
    ensures s == GetTopWords(text, topN)
  {
    ParseReportInverse(s);
  }
}

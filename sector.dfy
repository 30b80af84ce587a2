/**
 * The sector-analysis page: for each selected sector, the symbols of that
 * sector are fetched and scored, those scoring at least `min_score` are
 * sorted best first, and the top ten are shown with at most four signals each.
 */
module Sector {
  import opened Scan
  import opened OrderedDict

  /** `(sym, name, score, signals)` of one kept symbol (the frame is only charted). */
  datatype SectorHit = SectorHit(symbol: string, name: string, score: real, signals: seq<string>)

  /** What the page shows for one sector. */
  datatype SectorView = NothingPassed | Top(stocks: seq<SectorHit>)

  datatype SectorReport = SectorReport(sector: string, view: SectorView)

  const MaxShown: nat := 10
  const MaxSignals: nat := 4

  function HitScore(h: SectorHit): real
  {
    h.score
  }

  function Min(a: nat, b: nat): nat
  {
    if a <= b then a else b
  }

  /** `stocks.items()`: the (symbol, company) pairs in insertion order. */
  function Items(stocks: Dict<string>): (items: seq<(string, string)>)
    requires Valid(stocks)
    ensures |items| == |stocks.keys|
    ensures forall i :: 0 <= i < |items| ==> items[i] == (stocks.keys[i], stocks.entries[stocks.keys[i]])
  {
    seq(|stocks.keys|, i requires 0 <= i < |stocks.keys| => (stocks.keys[i], stocks.entries[stocks.keys[i]]))
  }

  /** `filtered_results` after the loop over one sector's items. */
  function SectorPassing(items: seq<(string, string)>, outcomeOf: string -> SymbolOutcome, minScore: int)
    : seq<SectorHit>
  {
    if items == [] then []
    else
      var (symbol, name) := items[|items| - 1];
      var o := outcomeOf(symbol);
      SectorPassing(items[..|items| - 1], outcomeOf, minScore)
        + (if Passes(o, minScore) then [SectorHit(symbol, name, o.score, o.signals)] else [])
  }

  /** A shown row: `signals[:4]`. */
  function Truncated(h: SectorHit): SectorHit
  {
    h.(signals := h.signals[..Min(MaxSignals, |h.signals|)])
  }

  /** `filtered_results.sort(...)`, then the first ten rows, each with its signals truncated. */
  function Display(hits: seq<SectorHit>): SectorView
  {
    if hits == [] then NothingPassed
    else
      var sorted := SortDesc(hits, HitScore);
      Top(seq(Min(MaxShown, |sorted|), i requires 0 <= i < Min(MaxShown, |sorted|) => Truncated(sorted[i])))
  }

  /** The inner loop for one sector, then the sort and the cut. */
  method ScanSector(stocks: Dict<string>, outcomeOf: string -> SymbolOutcome, minScore: int)
    returns (view: SectorView)
    requires Valid(stocks)
    requires MinScoreLow <= minScore <= MinScoreHigh
    ensures view == Display(SectorPassing(Items(stocks), outcomeOf, minScore))
  {
    var items := Items(stocks);
    var filtered: seq<SectorHit> := [];
    for i := 0 to |stocks.keys|
      invariant filtered == SectorPassing(items[..i], outcomeOf, minScore)
    {
      var symbol := stocks.keys[i];
      var name := stocks.entries[symbol];
      assert items[..i + 1] == items[..i] + [(symbol, name)];
      assert items[..i + 1][..i] == items[..i];
      match outcomeOf(symbol) {
        case FetchFailed(_) =>
          continue;
        case NoData =>
          continue;
        case ScoreFailed(_) =>
          continue;
        case Scored(score, signals) =>
          if score >= minScore as real {
            filtered := filtered + [SectorHit(symbol, name, score, signals)];
          }
      }
    }
    assert items[..|stocks.keys|] == items;
    view := ShowTop(filtered);
  }

  /** The display step for one sector: sorted best first, the first ten rows with at most four signals. */
  method ShowTop(filtered: seq<SectorHit>) returns (view: SectorView)
    ensures view == Display(filtered)
  {
    if filtered != [] {
      var sorted := SortDesc(filtered, HitScore);
      var top := sorted[..Min(MaxShown, |sorted|)];
      var shown: seq<SectorHit> := [];
      for j := 0 to |top|
        invariant |shown| == j
        invariant forall k :: 0 <= k < j ==> shown[k] == Truncated(top[k])
      {
        shown := shown + [Truncated(top[j])];
      }
      view := Top(shown);
    } else {
      view := NothingPassed;
    }
  }

  /** Pressing "Run Sector Analysis": each selected sector is scanned from scratch. */
  method RunSectorAnalysis(selectedSectors: seq<string>, sectorMap: Dict<Dict<string>>,
                           outcomeOf: string -> SymbolOutcome, minScore: int)
    returns (reports: seq<SectorReport>)
    requires forall s :: s in sectorMap.entries ==> Valid(sectorMap.entries[s])
    requires MinScoreLow <= minScore <= MinScoreHigh
    ensures |reports| == |selectedSectors|
    ensures forall i :: 0 <= i < |reports| ==>
      reports[i] == SectorReport(selectedSectors[i],
        Display(SectorPassing(Items(Get(sectorMap, selectedSectors[i], Empty())), outcomeOf, minScore)))
  {
    reports := [];
    for i := 0 to |selectedSectors|
      invariant |reports| == i
      invariant forall k :: 0 <= k < i ==>
        reports[k] == SectorReport(selectedSectors[k],
          Display(SectorPassing(Items(Get(sectorMap, selectedSectors[k], Empty())), outcomeOf, minScore)))
    {
      var sector := selectedSectors[i];
      var stocks := Get(sectorMap, sector, Empty());
      var view := ScanSector(stocks, outcomeOf, minScore);
      reports := reports + [SectorReport(sector, view)];
    }
  }

  /**
   * A sector's kept symbols are exactly its symbols scored at or above
   * `min_score`, each with its own company, score and signals.
   */
  lemma {:induction false} SectorPassingMembers(items: seq<(string, string)>, outcomeOf: string -> SymbolOutcome,
                                                minScore: int, h: SectorHit)
    ensures h in SectorPassing(items, outcomeOf, minScore)
        <==> (h.symbol, h.name) in items && Passes(outcomeOf(h.symbol), minScore)
             && h.score == outcomeOf(h.symbol).score && h.signals == outcomeOf(h.symbol).signals
  {
    if items != [] {
      var n := |items| - 1;
      var p, last := items[..n], items[n];
      SectorPassingMembers(p, outcomeOf, minScore, h);
      assert items == p + [last];
      var o := outcomeOf(last.0);
      assert SectorPassing(items, outcomeOf, minScore)
          == SectorPassing(p, outcomeOf, minScore)
             + (if Passes(o, minScore) then [SectorHit(last.0, last.1, o.score, o.signals)] else []);
      assert (h.symbol, h.name) in items <==> (h.symbol, h.name) in p || (h.symbol, h.name) == last;
    }
  }

  /** The rows shown for kept results: the truncations of the first ten of the stable sort. */
  lemma DisplayRows(hits: seq<SectorHit>)
    requires hits != []
    ensures var shown := Display(hits).stocks;
      && |shown| == Min(MaxShown, |hits|)
      && forall k :: 0 <= k < |shown| ==> shown[k] == Truncated(SortDesc(hits, HitScore)[k])
  {
  }

  /** The shown rows are best first. */
  lemma DisplaySorted(hits: seq<SectorHit>)
    requires hits != []
    ensures NonIncreasing(Display(hits).stocks, HitScore)
  {
    var sorted := SortDesc(hits, HitScore);
    var shown := Display(hits).stocks;
    DisplayRows(hits);
    SortDescSorted(hits, HitScore);
    forall i, j | 0 <= i < j < |shown| ensures HitScore(shown[i]) >= HitScore(shown[j]) {
      assert HitScore(shown[i]) == HitScore(sorted[i]);
      assert HitScore(shown[j]) == HitScore(sorted[j]);
    }
  }

  /** Every shown row is the truncation of a kept row. */
  lemma DisplayFromHits(hits: seq<SectorHit>)
    requires hits != []
    ensures var shown := Display(hits).stocks;
      forall k :: 0 <= k < |shown| ==> exists h :: h in hits && shown[k] == Truncated(h)
  {
    var sorted := SortDesc(hits, HitScore);
    var shown := Display(hits).stocks;
    DisplayRows(hits);
    SortDescPermutation(hits, HitScore);
    forall k | 0 <= k < |shown| ensures exists h :: h in hits && shown[k] == Truncated(h) {
      assert sorted[k] in multiset(sorted);
      assert sorted[k] in hits;
    }
  }

  /**
   * What is shown for a sector: nothing exactly when no symbol passed;
   * otherwise at most ten rows, best first, each the truncation of a kept
   * symbol's row to at most four signals, and the first ten of the stably
   * sorted results.
   */
  lemma DisplayBounds(hits: seq<SectorHit>)
    ensures Display(hits).NothingPassed? <==> hits == []
    ensures Display(hits).Top? ==> var shown := Display(hits).stocks;
      && |shown| == Min(MaxShown, |hits|)
      && NonIncreasing(shown, HitScore)
      && (forall k :: 0 <= k < |shown| ==> |shown[k].signals| <= MaxSignals)
      && (forall k :: 0 <= k < |shown| ==> shown[k] == Truncated(SortDesc(hits, HitScore)[k]))
      && (forall k :: 0 <= k < |shown| ==> exists h :: h in hits && shown[k] == Truncated(h))
  {
    if hits != [] {
      DisplayRows(hits);
      DisplaySorted(hits);
      DisplayFromHits(hits);
    }
  }

  /** A sector missing from the sector map shows nothing. */
  lemma MissingSectorShowsNothing(sectorMap: Dict<Dict<string>>, sector: string,
                                  outcomeOf: string -> SymbolOutcome, minScore: int)
    requires sector !in sectorMap.entries
    ensures Display(SectorPassing(Items(Get(sectorMap, sector, Empty())), outcomeOf, minScore)) == NothingPassed
  {
  }
}

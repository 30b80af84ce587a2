/**
 * The screener page: every selected symbol is fetched and scored in turn,
 * a symbol whose fetch or scoring fails is skipped, the symbols scoring at
 * least `min_score` are kept and then shown best first.
 */
module Screener {
  import opened Scan

  /** One kept result: `{"symbol", "score", "signals"}` (the frame is only charted). */
  datatype Hit = Hit(symbol: string, score: real, signals: seq<string>)

  /** What the page shows after a run. */
  datatype View = NoMatches | Ranked(hits: seq<Hit>)

  function HitScore(h: Hit): real
  {
    h.score
  }

  function HitOf(symbol: string, o: SymbolOutcome): Hit
    requires o.Scored?
  {
    Hit(symbol, o.score, o.signals)
  }

  /** The results of scanning `selected` in order. */
  function Passing(selected: seq<string>, outcomeOf: string -> SymbolOutcome, minScore: int): seq<Hit>
  {
    if selected == [] then []
    else
      var symbol := selected[|selected| - 1];
      var o := outcomeOf(symbol);
      Passing(selected[..|selected| - 1], outcomeOf, minScore)
        + (if Passes(o, minScore) then [HitOf(symbol, o)] else [])
  }

  function SymbolsOf(hits: seq<Hit>): seq<string>
  {
    seq(|hits|, i requires 0 <= i < |hits| => hits[i].symbol)
  }

  /** `a` is `b` with some elements left out, the rest in the same order. */
  predicate IsSubsequence(a: seq<string>, b: seq<string>)
    decreases |b|
  {
    a == [] ||
    (b != [] &&
     ((a[|a| - 1] == b[|b| - 1] && IsSubsequence(a[..|a| - 1], b[..|b| - 1]))
      || IsSubsequence(a, b[..|b| - 1])))
  }

  /** Pressing "Run Screener": the loop over `selected`, then the ranked display. */
  method RunScreener(selected: seq<string>, outcomeOf: string -> SymbolOutcome, minScore: int)
    returns (results: seq<Hit>, view: View)
    requires MinScoreLow <= minScore <= MinScoreHigh
    ensures results == Passing(selected, outcomeOf, minScore)
    ensures results == [] <==> view == NoMatches
    ensures view.Ranked? ==> view.hits == SortDesc(results, HitScore)
    ensures view.Ranked? ==> NonIncreasing(view.hits, HitScore)
    ensures view.Ranked? ==> multiset(view.hits) == multiset(results)
    ensures view.Ranked? ==> forall v :: WithKey(view.hits, HitScore, v) == WithKey(results, HitScore, v)
  {
    results := [];
    for i := 0 to |selected|
      invariant results == Passing(selected[..i], outcomeOf, minScore)
    {
      var symbol := selected[i];
      assert selected[..i + 1][..i] == selected[..i];
      var outcome := outcomeOf(symbol);
      match outcome {
        case FetchFailed(_) =>
          continue;
        case NoData =>
        case ScoreFailed(_) =>
          continue;
        case Scored(score, signals) =>
          if score >= minScore as real {
            results := results + [Hit(symbol, score, signals)];
          }
      }
    }
    assert selected[..|selected|] == selected;
    if results != [] {
      var ranked := SortDesc(results, HitScore);
      SortDescSorted(results, HitScore);
      SortDescPermutation(results, HitScore);
      forall v ensures WithKey(ranked, HitScore, v) == WithKey(results, HitScore, v) {
        SortDescStable(results, HitScore, v);
      }
      view := Ranked(ranked);
    } else {
      view := NoMatches;
    }
  }

  /** A symbol is kept if and only if it was scored at or above `min_score`, with its own score and signals. */
  lemma {:induction false} PassingMembers(selected: seq<string>, outcomeOf: string -> SymbolOutcome, minScore: int, h: Hit)
    ensures h in Passing(selected, outcomeOf, minScore)
        <==> exists i :: 0 <= i < |selected| && Passes(outcomeOf(selected[i]), minScore)
                         && h == HitOf(selected[i], outcomeOf(selected[i]))
  {
    if selected != [] {
      var n := |selected| - 1;
      var p := selected[..n];
      PassingMembers(p, outcomeOf, minScore, h);
      if exists i :: 0 <= i < |selected| && Passes(outcomeOf(selected[i]), minScore)
                     && h == HitOf(selected[i], outcomeOf(selected[i])) {
        var i :| 0 <= i < |selected| && Passes(outcomeOf(selected[i]), minScore)
                 && h == HitOf(selected[i], outcomeOf(selected[i]));
        if i < n {
          assert p[i] == selected[i];
        }
      }
      if exists i :: 0 <= i < |p| && Passes(outcomeOf(p[i]), minScore) && h == HitOf(p[i], outcomeOf(p[i])) {
        var i :| 0 <= i < |p| && Passes(outcomeOf(p[i]), minScore) && h == HitOf(p[i], outcomeOf(p[i]));
        assert selected[i] == p[i];
      }
    }
  }

  /** Before sorting, the results follow the selection order: their symbols are a subsequence of `selected`. */
  lemma {:induction false} PassingInSelectionOrder(selected: seq<string>, outcomeOf: string -> SymbolOutcome, minScore: int)
    ensures IsSubsequence(SymbolsOf(Passing(selected, outcomeOf, minScore)), selected)
  {
    if selected != [] {
      var n := |selected| - 1;
      var p := selected[..n];
      PassingInSelectionOrder(p, outcomeOf, minScore);
      var a := SymbolsOf(Passing(p, outcomeOf, minScore));
      var b := SymbolsOf(Passing(selected, outcomeOf, minScore));
      if Passes(outcomeOf(selected[n]), minScore) {
        assert b == a + [selected[n]];
        assert b[..|b| - 1] == a;
      } else {
        assert b == a;
      }
    }
  }
}

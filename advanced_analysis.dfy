/**
 * The heuristic predictor of the advanced-analysis page: the latest RSI,
 * MACD and moving-average readings of a price frame are turned into a
 * bounded score, a list of signal labels and a predicted one-step change.
 */
module AdvancedAnalysis {
  import opened Wrappers

  /**
   * One row of the indicator-annotated price frame. An indicator cell is
   * `None` when its column is missing or the value is NaN. Closing prices
   * are always present.
   */
  datatype Row = Row(close: real, rsi: Option<real>, macd: Option<real>, macdSignal: Option<real>,
                     sma20: Option<real>, sma50: Option<real>)

  /** What the predictor returns: `(pred, confidence, signals)`. */
  datatype Prediction = Prediction(predictedChange: real, confidence: real, signals: seq<string>)

  /** The readings of the latest row, after defaults have been applied. */
  datatype Snapshot = Snapshot(rsi: real, macd: real, macdSignal: real, close: real, sma20: real, sma50: real)

  /** The points one rule adds to the score, and the labels it appends. */
  datatype Contribution = Contribution(points: real, labels: seq<string>)

  const MinRows: nat := 30
  const Insufficient: Prediction := Prediction(0.0, 0.0, ["Insufficient data"])

  const RsiLabels: set<string> := {"RSI Oversold", "RSI Overbought", "RSI Neutral"}
  const MacdLabels: set<string> := {"MACD Bullish", "MACD Bearish"}
  const TrendLabels: set<string> := {"Strong Uptrend", "Short-term Bullish", "Below MAs"}

  /** Every close is positive, so that a percentage change is defined between any two rows. */
  predicate PositiveCloses(df: seq<Row>)
  {
    forall i :: 0 <= i < |df| ==> df[i].close > 0.0
  }

  /** The inner lookup `g(col, default)`: a missing or NaN cell reads as the default. */
  function Cell(cell: Option<real>, default: real): (v: real)
    ensures cell.None? ==> v == default
    ensures cell.Some? ==> v == cell.value
  {
    match cell
    case Some(x) => x
    case None => default
  }

  function Latest(row: Row): Snapshot
  {
    Snapshot(Cell(row.rsi, 50.0), Cell(row.macd, 0.0), Cell(row.macdSignal, 0.0),
             row.close, Cell(row.sma20, 0.0), Cell(row.sma50, 0.0))
  }

  /** `max(lo, min(hi, x))`. */
  function Clamp(x: real, lo: real, hi: real): (r: real)
    requires lo <= hi
    ensures lo <= r <= hi
    ensures lo <= x <= hi ==> r == x
    ensures x < lo ==> r == lo
    ensures hi < x ==> r == hi
  {
    if x < lo then lo else if hi < x then hi else x
  }

  // The three rules as a decision table.

  function RsiRule(rsi: real): Contribution
  {
    if rsi < 30.0 then Contribution(15.0, ["RSI Oversold"])
    else if rsi > 70.0 then Contribution(-10.0, ["RSI Overbought"])
    else Contribution(5.0, ["RSI Neutral"])
  }

  function MacdRule(macd: real, signal: real): Contribution
  {
    if macd > signal then Contribution(15.0, ["MACD Bullish"])
    else Contribution(-5.0, ["MACD Bearish"])
  }

  /** Skipped unless all three readings are non-zero (Python truthiness of floats). */
  function TrendRule(close: real, sma20: real, sma50: real): Contribution
  {
    if close == 0.0 || sma20 == 0.0 || sma50 == 0.0 then Contribution(0.0, [])
    else if close > sma20 && sma20 > sma50 then Contribution(20.0, ["Strong Uptrend"])
    else if close > sma20 then Contribution(10.0, ["Short-term Bullish"])
    else Contribution(-10.0, ["Below MAs"])
  }

  function Rules(s: Snapshot): seq<Contribution>
  {
    [RsiRule(s.rsi), MacdRule(s.macd, s.macdSignal), TrendRule(s.close, s.sma20, s.sma50)]
  }

  function RawScore(s: Snapshot): real
  {
    var rs := Rules(s);
    rs[0].points + rs[1].points + rs[2].points
  }

  function Labels(s: Snapshot): seq<string>
  {
    var rs := Rules(s);
    rs[0].labels + rs[1].labels + rs[2].labels
  }

  function Closes(df: seq<Row>): (c: seq<real>)
    ensures |c| == |df| && forall i :: 0 <= i < |df| ==> c[i] == df[i].close
  {
    seq(|df|, i requires 0 <= i < |df| => df[i].close)
  }

  /** `df["Close"].pct_change().dropna()`: the change from each close to the next. */
  function Returns(c: seq<real>): (r: seq<real>)
    requires forall i :: 0 <= i < |c| ==> c[i] > 0.0
    ensures |r| == if |c| == 0 then 0 else |c| - 1
  {
    if |c| == 0 then []
    else seq(|c| - 1, i requires 0 <= i < |c| - 1 => (c[i + 1] - c[i]) / c[i])
  }

  /** `returns.tail(5).mean()` when there are at least five returns, else 0. */
  function RecentReturn(c: seq<real>): (recent: real)
    requires forall i :: 0 <= i < |c| ==> c[i] > 0.0
    ensures |c| < 6 ==> recent == 0.0
  {
    var r := Returns(c);
    if |r| >= 5 then
      var t := r[|r| - 5..];
      (t[0] + t[1] + t[2] + t[3] + t[4]) / 5.0
    else 0.0
  }

  /** The predicted change before it is clamped to [-0.1, 0.1]. */
  function Adjust(score: real, recent: real): real
  {
    if score > 70.0 then recent * 1.5 + 0.01
    else if score < 30.0 then recent * 0.5 - 0.01
    else recent
  }

  /** The specification of `_simple_prediction`. */
  function Predict(df: seq<Row>): (p: Prediction)
    requires PositiveCloses(df)
    ensures -0.1 <= p.predictedChange <= 0.1
    ensures 0.0 <= p.confidence <= 100.0
  {
    if |df| < MinRows then Insufficient
    else
      var s := Latest(df[|df| - 1]);
      var score := Clamp(RawScore(s), 0.0, 100.0);
      Prediction(Clamp(Adjust(score, RecentReturn(Closes(df))), -0.1, 0.1), score, Labels(s))
  }

  /** The rule blocks of `_simple_prediction`: the raw score and the labels, accumulated over the latest row. */
  method ScoreLatest(latest: Row) returns (score: real, signals: seq<string>)
    ensures score == RawScore(Latest(latest)) && signals == Labels(Latest(latest))
  {
    score := 0.0;
    signals := [];

    var rsi := Cell(latest.rsi, 50.0);
    if rsi < 30.0 {
      score := score + 15.0; signals := signals + ["RSI Oversold"];
    } else if rsi > 70.0 {
      score := score - 10.0; signals := signals + ["RSI Overbought"];
    } else {
      score := score + 5.0; signals := signals + ["RSI Neutral"];
    }
    assert score == RsiRule(rsi).points && signals == RsiRule(rsi).labels;

    var macd := Cell(latest.macd, 0.0);
    var macdSignal := Cell(latest.macdSignal, 0.0);
    if macd > macdSignal {
      score := score + 15.0; signals := signals + ["MACD Bullish"];
    } else {
      score := score - 5.0; signals := signals + ["MACD Bearish"];
    }
    assert score == RsiRule(rsi).points + MacdRule(macd, macdSignal).points;
    assert signals == RsiRule(rsi).labels + MacdRule(macd, macdSignal).labels;

    var close := latest.close;
    var sma20 := Cell(latest.sma20, 0.0);
    var sma50 := Cell(latest.sma50, 0.0);
    if close != 0.0 && sma20 != 0.0 && sma50 != 0.0 {
      if close > sma20 && sma20 > sma50 {
        score := score + 20.0; signals := signals + ["Strong Uptrend"];
      } else if close > sma20 {
        score := score + 10.0; signals := signals + ["Short-term Bullish"];
      } else {
        score := score - 10.0; signals := signals + ["Below MAs"];
      }
    }
  }

  /** `_simple_prediction(df)`: the rule blocks, the clamp to [0, 100], then the trend adjustment. */
  method SimplePrediction(df: seq<Row>) returns (pred: real, confidence: real, signals: seq<string>)
    requires PositiveCloses(df)
    ensures Prediction(pred, confidence, signals) == Predict(df)
    ensures |df| < MinRows ==> pred == 0.0 && confidence == 0.0 && signals == ["Insufficient data"]
    ensures -0.1 <= pred <= 0.1
  {
    if |df| == 0 || |df| < MinRows {
      return 0.0, 0.0, ["Insufficient data"];
    }
    var score;
    score, signals := ScoreLatest(df[|df| - 1]);
    score := Clamp(score, 0.0, 100.0);
    confidence := score;

    var recent := RecentReturn(Closes(df));
    var p: real;
    if score > 70.0 {
      p := recent * 1.5 + 0.01;
    } else if score < 30.0 {
      p := recent * 0.5 - 0.01;
    } else {
      p := recent;
    }
    assert p == Adjust(score, recent);
    pred := Clamp(p, -0.1, 0.1);
  }

  /** With enough rows the prediction is read off the latest row: its labels and its clamped score. */
  lemma PredictFromLatest(df: seq<Row>)
    requires PositiveCloses(df) && |df| >= MinRows
    ensures Predict(df).signals == Labels(Latest(df[|df| - 1]))
    ensures Predict(df).confidence == Clamp(RawScore(Latest(df[|df| - 1])), 0.0, 100.0)
  {
  }

  /**
   * The signals are the RSI label, then the MACD label, then a trend label
   * exactly when close, SMA-20 and SMA-50 are all non-zero.
   */
  lemma SignalsShape(row: Row)
    ensures var sig := Labels(Latest(row));
      var s := Latest(row);
      && 2 <= |sig| <= 3
      && sig[0] in RsiLabels && sig[1] in MacdLabels
      && (|sig| == 3 <==> s.close != 0.0 && s.sma20 != 0.0 && s.sma50 != 0.0)
      && (|sig| == 3 ==> sig[2] in TrendLabels)
  {
  }

  /**
   * The rules add at most 15 + 15 + 20 = 50 points, so the confidence lies in
   * [0, 50] and the `score > 70` adjustment is never taken.
   */
  lemma ScoreAtMostFifty(df: seq<Row>)
    requires PositiveCloses(df) && |df| >= MinRows
    ensures var s := Latest(df[|df| - 1]);
      -25.0 <= RawScore(s) <= 50.0 && Predict(df).confidence == Clamp(RawScore(s), 0.0, 100.0)
    ensures 0.0 <= Predict(df).confidence <= 50.0
    ensures var recent := RecentReturn(Closes(df));
      Predict(df).predictedChange
      == Clamp(if Predict(df).confidence < 30.0 then recent * 0.5 - 0.01 else recent, -0.1, 0.1)
  {
  }

  /** A MACD equal to its signal line is bearish: the test is strict. */
  lemma MacdTieIsBearish(row: Row)
    requires Latest(row).macd == Latest(row).macdSignal
    ensures Labels(Latest(row))[1] == "MACD Bearish"
  {
  }

  /** Missing indicator values read as their defaults: RSI 50, the others 0. */
  lemma MissingIndicatorsReadAsDefaults(row: Row)
    ensures row.rsi.None? ==> Labels(Latest(row))[0] == "RSI Neutral"
    ensures row.macd.None? && row.macdSignal.None? ==> Labels(Latest(row))[1] == "MACD Bearish"
    ensures row.sma20.None? || row.sma50.None? ==> |Labels(Latest(row))| == 2
  {
  }

  /** The trend guard tests for non-zero values, so a negative SMA-50 still lets the rule run. */
  lemma NegativeAverageStillTrends(row: Row)
    requires row.close > 0.0
    requires row.sma20 == Some(row.close / 2.0)
    requires row.sma50 == Some(-1.0)
    ensures Labels(Latest(row))[|Labels(Latest(row))| - 1] == "Strong Uptrend"
  {
  }

  /**
   * Oversold RSI, MACD above its signal and close > SMA-20 > SMA-50 give
   * 15 + 15 + 20 = 50 points and all three bullish labels; the predicted
   * change is the recent mean return, clamped.
   */
  lemma AllBullish(df: seq<Row>)
    requires PositiveCloses(df) && |df| >= MinRows
    requires var s := Latest(df[|df| - 1]);
      s.rsi < 30.0 && s.macd > s.macdSignal && s.close > s.sma20 > s.sma50 && s.sma20 != 0.0 && s.sma50 != 0.0
    ensures Predict(df).confidence == 50.0
    ensures Predict(df).signals == ["RSI Oversold", "MACD Bullish", "Strong Uptrend"]
    ensures Predict(df).predictedChange == Clamp(RecentReturn(Closes(df)), -0.1, 0.1)
  {
  }

  /**
   * With at least 30 rows there are always at least five returns, so the
   * recent return is the mean of the last five close-to-close changes.
   */
  lemma RecentIsMeanOfLastFive(df: seq<Row>)
    requires PositiveCloses(df) && |df| >= MinRows
    ensures var c, n := Closes(df), |df|;
      RecentReturn(c)
      == ((c[n - 5] - c[n - 6]) / c[n - 6] + (c[n - 4] - c[n - 5]) / c[n - 5] + (c[n - 3] - c[n - 4]) / c[n - 4]
          + (c[n - 2] - c[n - 3]) / c[n - 3] + (c[n - 1] - c[n - 2]) / c[n - 2]) / 5.0
  {
  }
}

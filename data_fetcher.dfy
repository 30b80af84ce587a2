/**
 * Fetching a daily price history with automatic exchange-suffix handling:
 * a bare symbol is taken to be an NSE listing (".NS"); when the NSE request
 * fails or comes back empty, the same symbol is tried once on BSE (".BO").
 */
module DataFetcher {
  import opened Wrappers

  /** One daily OHLCV bar; `day` orders the bars of a history. */
  datatype Bar = Bar(day: int, open: real, high: real, low: real, close: real, volume: real)

  /**
   * What one provider request (`yf.Ticker(symbol).history(period=period)`)
   * gives back: a possibly empty frame of bars, or an exception with its text.
   */
  datatype HistoryOutcome = Frame(bars: seq<Bar>) | Raised(message: string)

  const NseSuffix: string := ".NS"
  const BseSuffix: string := ".BO"

  /** `s.endswith(suffix)`. */
  predicate EndsWith(s: string, suffix: string)
  {
    |suffix| <= |s| && s[|s| - |suffix|..] == suffix
  }

  /** A symbol without an exchange suffix is an NSE symbol. */
  function NormalizeSymbol(symbol: string): (s: string)
    ensures EndsWith(s, NseSuffix) || EndsWith(s, BseSuffix)
    ensures EndsWith(symbol, NseSuffix) || EndsWith(symbol, BseSuffix) ==> s == symbol
    ensures !EndsWith(symbol, NseSuffix) && !EndsWith(symbol, BseSuffix) ==> s == symbol + NseSuffix
  {
    if !EndsWith(symbol, NseSuffix) && !EndsWith(symbol, BseSuffix) then symbol + NseSuffix else symbol
  }

  /**
   * `s.replace(pattern, replacement)`: scanning left to right, every
   * non-overlapping occurrence of `pattern` is replaced.
   */
  function ReplaceAll(s: string, pattern: string, replacement: string): (r: string)
    requires |pattern| > 0
    ensures |pattern| == |replacement| ==> |r| == |s|
    decreases |s|
  {
    if |s| < |pattern| then s
    else if s[..|pattern|] == pattern then replacement + ReplaceAll(s[|pattern|..], pattern, replacement)
    else [s[0]] + ReplaceAll(s[1..], pattern, replacement)
  }

  /** The BSE symbol tried after a failed NSE request. */
  function BseFallback(symbol: string): string
  {
    ReplaceAll(symbol, NseSuffix, BseSuffix)
  }

  /**
   * `fetch_stock_data_with_fallback(symbol, period)`. `history` is the
   * market-data provider; `requested` records the symbols it was asked for,
   * in order.
   */
  method FetchStockDataWithFallback(symbol: string, period: string, history: (string, string) -> HistoryOutcome)
    returns (result: Result<seq<Bar>, string>, ghost requested: seq<string>)
    ensures result.Ok? ==> |result.value| > 0
    ensures 1 <= |requested| <= 2 && requested[0] == NormalizeSymbol(symbol)
    // a non-empty primary frame is returned at once, with no second request
    ensures history(NormalizeSymbol(symbol), period).Frame? && |history(NormalizeSymbol(symbol), period).bars| > 0
        ==> result == Ok(history(NormalizeSymbol(symbol), period).bars) && |requested| == 1
    // the fallback is requested exactly when the primary failed and the symbol is an NSE one
    ensures |requested| == 2
        <==> (history(NormalizeSymbol(symbol), period).Raised? || history(NormalizeSymbol(symbol), period).bars == [])
             && EndsWith(NormalizeSymbol(symbol), NseSuffix)
    ensures |requested| == 2 ==> requested[1] == BseFallback(NormalizeSymbol(symbol))
    // after a failed primary, a non-empty fallback frame is the result
    ensures |requested| == 2 && history(requested[1], period).Frame? && |history(requested[1], period).bars| > 0
        ==> result == Ok(history(requested[1], period).bars)
    // otherwise the error names the normalised symbol and the primary attempt's failure
    ensures result.Err? ==> result.error == FailureMessage(NormalizeSymbol(symbol), history(NormalizeSymbol(symbol), period))
    ensures result.Err? <==>
        (history(NormalizeSymbol(symbol), period).Raised? || history(NormalizeSymbol(symbol), period).bars == [])
        && (|requested| == 2 ==> history(requested[1], period).Raised? || history(requested[1], period).bars == [])
  {
    var sym := NormalizeSymbol(symbol);
    var primary := history(sym, period);
    requested := [sym];
    var cause: string;
    match primary {
      case Frame(bars) =>
        if |bars| > 0 {
          return Ok(bars), requested;
        }
        cause := "No data for " + sym;
      case Raised(message) =>
        cause := message;
    }
    if EndsWith(sym, NseSuffix) {
      var bseSymbol := BseFallback(sym);
      var fallback := history(bseSymbol, period);
      requested := requested + [bseSymbol];
      if fallback.Frame? && |fallback.bars| > 0 {
        return Ok(fallback.bars), requested;
      }
    }
    result := Err("Failed to fetch data for " + sym + ": " + cause);
  }

  /** The text of the final exception, given the outcome of the primary request. */
  function FailureMessage(symbol: string, primary: HistoryOutcome): string
  {
    "Failed to fetch data for " + symbol + ": "
      + (match primary
         case Raised(message) => message
         case Frame(_) => "No data for " + symbol)
  }

  /** Normalising is idempotent: a normalised symbol is used unchanged. */
  lemma NormalizeIdempotent(symbol: string)
    ensures NormalizeSymbol(NormalizeSymbol(symbol)) == NormalizeSymbol(symbol)
  {
  }

  /** An occurrence at the front is replaced and the scan resumes after it. */
  lemma FallbackAtHead(s: string)
    requires |s| >= 3 && s[..3] == NseSuffix
    ensures BseFallback(s) == BseSuffix + BseFallback(s[3..])
  {
  }

  /** Without an occurrence at the front, the first character is kept. */
  lemma FallbackSkipsHead(s: string)
    requires |s| >= 3 && s[..3] != NseSuffix
    ensures BseFallback(s) == [s[0]] + BseFallback(s[1..])
  {
  }

  /** ".NS" cannot overlap itself: a longer symbol that starts and ends with it holds it twice. */
  lemma NseNoOverlap(s: string)
    requires |s| > 3 && s[..3] == NseSuffix && EndsWith(s, NseSuffix)
    ensures |s| >= 6
  {
    assert s[|s| - 3] == '.';
    assert s[1] != '.' && s[2] != '.';
  }

  lemma EndsWithTail(s: string, k: nat, suffix: string)
    requires EndsWith(s, suffix) && k <= |s| - |suffix|
    ensures EndsWith(s[k..], suffix)
  {
    assert s[k..][|s| - k - |suffix|..] == s[|s| - |suffix|..];
  }

  lemma EndsWithPrepend(p: string, s: string, suffix: string)
    requires EndsWith(s, suffix)
    ensures EndsWith(p + s, suffix)
  {
    assert (p + s)[|p + s| - |suffix|..] == s[|s| - |suffix|..];
  }

  /** The NSE->BSE rewrite of a ".NS" symbol ends in ".BO", so it differs from the symbol. */
  lemma {:induction false} FallbackEndsInBse(s: string)
    requires EndsWith(s, NseSuffix)
    ensures EndsWith(BseFallback(s), BseSuffix)
    ensures BseFallback(s) != s
    decreases |s|
  {
    if s[..3] == NseSuffix {
      FallbackAtHead(s);
      if |s| == 3 {
        assert s[3..] == [];
        assert BseFallback(s) == BseSuffix;
      } else {
        NseNoOverlap(s);
        EndsWithTail(s, 3, NseSuffix);
        FallbackEndsInBse(s[3..]);
        EndsWithPrepend(BseSuffix, BseFallback(s[3..]), BseSuffix);
      }
    } else {
      FallbackSkipsHead(s);
      EndsWithTail(s, 1, NseSuffix);
      FallbackEndsInBse(s[1..]);
      EndsWithPrepend([s[0]], BseFallback(s[1..]), BseSuffix);
    }
    assert BseFallback(s)[|s| - 3..] != s[|s| - 3..];
  }

  /** `replace` rewrites every ".NS", not only the suffix: "A.NSB.NS" becomes "A.BOB.BO". */
  lemma ReplacesEveryOccurrence(a: char, b: char)
    requires a != '.' && b != '.'
    ensures BseFallback([a] + NseSuffix + [b] + NseSuffix) == [a] + BseSuffix + [b] + BseSuffix
  {
    var s := [a] + NseSuffix + [b] + NseSuffix;
    assert s[..3][0] == a;
    FallbackSkipsHead(s);
    assert s[1..][..3] == NseSuffix;
    FallbackAtHead(s[1..]);
    assert s[1..][3..] == [b] + NseSuffix;
    assert ([b] + NseSuffix)[..3][0] == b;
    FallbackSkipsHead([b] + NseSuffix);
    assert ([b] + NseSuffix)[1..] == NseSuffix;
    FallbackAtHead(NseSuffix);
    assert NseSuffix[3..] == [];
    assert BseFallback([]) == [];
  }

  /** ".NS" occurs in `t` at position `i`. */
  predicate NseAt(t: string, i: int)
  {
    0 <= i && i + 3 <= |t| && t[i] == '.' && t[i + 1] == 'N' && t[i + 2] == 'S'
  }

  /** The rewrite starts with '.' when the input starts with ".NS", and otherwise with the input's first character. */
  lemma FallbackHead(t: string)
    requires |t| > 0
    ensures |BseFallback(t)| == |t|
    ensures BseFallback(t)[0] == if |t| >= 3 && t[..3] == NseSuffix then '.' else t[0]
  {
    if |t| >= 3 && t[..3] != NseSuffix {
      FallbackSkipsHead(t);
    }
  }

  /** No ".NS" survives the rewrite, wherever it stood in the symbol. */
  lemma {:induction false} NoNseSurvives(s: string)
    ensures forall i :: 0 <= i < |BseFallback(s)| ==> !NseAt(BseFallback(s), i)
    decreases |s|
  {
    var r := BseFallback(s);
    if |s| < 3 {
      assert r == s;
    } else if s[..3] == NseSuffix {
      FallbackAtHead(s);
      NoNseSurvives(s[3..]);
      var t := BseFallback(s[3..]);
      forall i | 0 <= i < |r| ensures !NseAt(r, i) {
        if i >= 3 {
          assert NseAt(r, i) ==> NseAt(t, i - 3);
        }
      }
    } else {
      FallbackSkipsHead(s);
      NoNseSurvives(s[1..]);
      var t := BseFallback(s[1..]);
      FallbackHead(s[1..]);
      forall i | 0 <= i < |r| ensures !NseAt(r, i) {
        if i >= 1 {
          assert NseAt(r, i) ==> NseAt(t, i - 1);
        } else {
          // r[1..3] comes from t, whose first two characters are '.' or s[1] and s[2]
          if |s| == 3 {
            assert t == s[1..];
          } else if s[1..][..3] != NseSuffix {
            FallbackSkipsHead(s[1..]);
            FallbackHead(s[2..]);
            assert s[1..][1..] == s[2..];
          }
        }
      }
    }
  }

  /** An occurrence in a suffix of `s` is an occurrence in `s`, shifted by the suffix's start. */
  lemma NseAtTail(s: string, k: nat, i: int)
    requires k <= |s| && 0 <= i
    ensures NseAt(s[k..], i) <==> NseAt(s, i + k)
  {
  }

  /**
   * `replace` exactly: each ".NS" becomes ".BO" and every other character is
   * kept. Position j holds 'B' or 'O' when an occurrence starts one or two
   * places before it; ".NS" cannot overlap itself, so these cases never clash.
   */
  lemma {:induction false} FallbackPositions(s: string)
    ensures |BseFallback(s)| == |s|
    ensures forall j :: 0 <= j < |s| ==>
      BseFallback(s)[j] == (if j >= 1 && NseAt(s, j - 1) then 'B' else if j >= 2 && NseAt(s, j - 2) then 'O' else s[j])
    decreases |s|
  {
    var r := BseFallback(s);
    if |s| < 3 {
      assert r == s;
    } else if s[..3] == NseSuffix {
      FallbackAtHead(s);
      FallbackPositions(s[3..]);
      var t := BseFallback(s[3..]);
      assert NseAt(s, 0) && !NseAt(s, 1) && !NseAt(s, 2);
      forall j | 3 <= j < |s|
        ensures r[j] == (if NseAt(s, j - 1) then 'B' else if NseAt(s, j - 2) then 'O' else s[j])
      {
        assert r[j] == t[j - 3] && s[3..][j - 3] == s[j];
        if j >= 4 { NseAtTail(s, 3, j - 4); }
        if j >= 5 { NseAtTail(s, 3, j - 5); }
      }
    } else {
      FallbackSkipsHead(s);
      FallbackPositions(s[1..]);
      var t := BseFallback(s[1..]);
      assert !NseAt(s, 0);
      forall j | 1 <= j < |s|
        ensures r[j] == (if NseAt(s, j - 1) then 'B' else if j >= 2 && NseAt(s, j - 2) then 'O' else s[j])
      {
        assert r[j] == t[j - 1] && s[1..][j - 1] == s[j];
        if j >= 2 { NseAtTail(s, 1, j - 2); }
        if j >= 3 { NseAtTail(s, 1, j - 3); }
      }
    }
  }

  /** A symbol without a dot, suffixed with ".NS", falls back to the same symbol on ".BO". */
  lemma {:induction false} PlainSymbolFallback(s: string)
    requires forall i :: 0 <= i < |s| ==> s[i] != '.'
    ensures BseFallback(s + NseSuffix) == s + BseSuffix
  {
    if s == [] {
      assert s + NseSuffix == NseSuffix;
      FallbackAtHead(NseSuffix);
      assert NseSuffix[3..] == [];
      assert BseFallback([]) == [];
    } else {
      var t := s + NseSuffix;
      assert t[..3][0] == s[0];
      FallbackSkipsHead(t);
      assert t[1..] == s[1..] + NseSuffix;
      PlainSymbolFallback(s[1..]);
      assert s == [s[0]] + s[1..];
    }
  }

  /** A bare "FOO" is requested as "FOO.NS" and falls back to "FOO.BO". */
  lemma BareSymbolFallback()
    ensures NormalizeSymbol("FOO") == "FOO.NS"
    ensures BseFallback(NormalizeSymbol("FOO")) == "FOO.BO"
  {
    var s := "FOO";
    assert s[|s| - 1] == 'O';
    PlainSymbolFallback(s);
  }
}

# Stock screener core, modelled in Dafny

This project models the deterministic logic of a small Streamlit stock screener for Indian equities:

- the heuristic predictor of the advanced-analysis page (`_simple_prediction`);
- the price-history fetch with NSE/BSE suffix handling and a single BSE fallback (`fetch_stock_data_with_fallback`);
- the watchlist kept in the session (initial defaults, add, remove selected);
- the screener and sector pages' filter-and-rank steps;
- the construction of the symbol and sector tables from the rows of the symbol CSV.

Modules, one per source file, plus three that are shared:

- `AdvancedAnalysis` (`advanced_analysis.dfy`). The predictor runs as a method, with its three rule blocks in a second method, `ScoreLatest`, that builds the score step by step. It is proved equal to `Predict`, a decision-table specification made of three independent rule contributions, a clamp and the mean of the last five returns. Prices are exact `real`s. An indicator cell is an `Option<real>`, where `None` stands for a missing column or a NaN.
- `DataFetcher` (`data_fetcher.dfy`). Suffix normalisation and `str.replace` are pure functions. The fetch is a straight-line method over an abstract provider `history(symbol, period)`, which returns a frame of bars (possibly empty) or raises with a message. A ghost out-parameter records which symbols were requested.
- `Watchlist` (`watchlist.dfy`). A class whose field is the list in the session, with no duplicates as its invariant. `Add` and `RemoveSelected` are tied to the pure functions `AddSymbol` and `KeepUnselected`, and the properties are lemmas about those functions.
- `Scan` (`scan.dfy`). Holds the per-symbol outcome (`FetchFailed`, `NoData`, `ScoreFailed`, `Scored`) and the `min_score` test. It also holds Python's stable descending sort, written as an insertion sort with lemmas for sortedness, permutation and stability.
- `Screener` (`screener.dfy`) and `Sector` (`sector.dfy`). The page loops, with the display decisions: "no matches", the sorted list, the top ten, and four signals each. A sector's display step is its own method, `ShowTop`.
- `SymbolUniverse` (`symbol_universe.dfy`) over `OrderedDict` (`ordered_dict.dfy`). A Python dict is modelled as insertion-ordered keys plus a map. `all_symbols` is a pure last-write-wins fold. `sector_map` is filled by a loop over the distinct sectors in order of first appearance. That loop is the generic `OrderedDict.TabulateLoop`, which assigns `f(k)` to each key in turn; here `f` builds a sector's table.
- `Wrappers` (`wrappers.dfy`). `Option` and `Result`.

Points of the code's behaviour that are easy to misread:

- The trend rule runs when close, SMA-20 and SMA-50 are all non-zero (Python truthiness). Negative values pass; positivity is not required.
- The last trend label is `"Below MAs"`, and every label carries its prefix (`"RSI Oversold"`, `"MACD Bullish"`).
- The final fetch error names the normalised symbol, not the symbol the caller passed. Its text is `Failed to fetch data for <symbol>: <cause>`. When the primary frame was empty, the cause is `No data for <symbol>`.
- The repository has no Monte Carlo simulator. The third tab of the page is a placeholder.
- The rules add at most 15 + 15 + 20 = 50 points. The `score > 70` adjustment of the predicted change can therefore never run (`ScoreAtMostFifty`).

## Model

| member | source | states |
|---|---|---|
| `AdvancedAnalysis.SimplePrediction` | pages/05_Advanced_Analysis.py:56-101 | The predictor returns exactly the decision-table specification `Predict`: the scored rules, the clamp to [0, 100], then the adjustment. Fewer than 30 rows give `(0.0, 0.0, ["Insufficient data"])`. The predicted change lies in [-0.1, 0.1]. |
| `AdvancedAnalysis.ScoreLatest` | pages/05_Advanced_Analysis.py:67-90 | Adding the rule points and appending the labels one block at a time gives exactly the decision table's raw score and label list for the latest row. |
| `AdvancedAnalysis.Predict` | pages/05_Advanced_Analysis.py:56-101 | The specification of the predictor. Its predicted change is always in [-0.1, 0.1] and its confidence in [0, 100]. |
| `AdvancedAnalysis.Cell` | pages/05_Advanced_Analysis.py:62-66 | A missing or NaN cell reads as the default; a present value is used as it is. |
| `AdvancedAnalysis.Clamp` | pages/05_Advanced_Analysis.py:92 | `max(lo, min(hi, x))` lies in [lo, hi]. It equals x inside the interval and the nearer bound outside it. |
| `AdvancedAnalysis.Returns` | pages/05_Advanced_Analysis.py:95 | `pct_change().dropna()` over n positive closes gives n-1 returns. |
| `AdvancedAnalysis.RecentReturn` | pages/05_Advanced_Analysis.py:95-96 | The recent return is 0 when there are fewer than five returns (fewer than six closes). |
| `AdvancedAnalysis.RecentIsMeanOfLastFive` | pages/05_Advanced_Analysis.py:95-96 | With at least 30 rows the recent return is always the mean of the last five `(c[i]-c[i-1])/c[i-1]`. |
| `AdvancedAnalysis.PredictFromLatest` | pages/05_Advanced_Analysis.py:60-92 | With at least 30 rows, the signals and the confidence depend only on the last row: its labels and its clamped raw score. |
| `AdvancedAnalysis.SignalsShape` | pages/05_Advanced_Analysis.py:72-90 | There are 2 or 3 signals: an RSI label, then a MACD label, then a trend label. The trend label is present exactly when close, SMA-20 and SMA-50 are all non-zero. |
| `AdvancedAnalysis.ScoreAtMostFifty` | pages/05_Advanced_Analysis.py:72-100 | The raw sum lies in [-25, 50] and the confidence is its clamp, so it lies in [0, 50]. The predicted change is the clamp of `recent*0.5-0.01` below 30 and of `recent` otherwise; the `> 70` branch never runs. |
| `AdvancedAnalysis.MacdTieIsBearish` | pages/05_Advanced_Analysis.py:78-79 | A MACD equal to its signal line gives "MACD Bearish". |
| `AdvancedAnalysis.MissingIndicatorsReadAsDefaults` | pages/05_Advanced_Analysis.py:71-84 | A missing RSI gives "RSI Neutral". Missing MACD and signal give "MACD Bearish". A missing SMA-20 or SMA-50 skips the trend rule, leaving two signals. |
| `AdvancedAnalysis.NegativeAverageStillTrends` | pages/05_Advanced_Analysis.py:84-86 | A negative SMA-50 below a positive SMA-20 below the close still yields "Strong Uptrend". |
| `AdvancedAnalysis.AllBullish` | pages/05_Advanced_Analysis.py:72-99 | Oversold RSI, a bullish MACD and close > SMA-20 > SMA-50 give confidence 50 and the three bullish labels in rule order. The predicted change is then the clamped recent return. |
| `DataFetcher.NormalizeSymbol` | utils/data_fetcher.py:8-9 | The result always ends in ".NS" or ".BO". A symbol already ending in either is unchanged; any other gets ".NS" appended. |
| `DataFetcher.NormalizeIdempotent` | utils/data_fetcher.py:8-9 | Normalising a normalised symbol changes nothing. |
| `DataFetcher.ReplaceAll` | utils/data_fetcher.py:23 | `str.replace` with a replacement as long as the pattern keeps the length. |
| `DataFetcher.FallbackEndsInBse` | utils/data_fetcher.py:22-23 | Rewriting a ".NS" symbol yields one ending in ".BO", never the symbol itself (".NS" cannot overlap itself). |
| `DataFetcher.ReplacesEveryOccurrence` | utils/data_fetcher.py:23 | Every ".NS" is rewritten, not only the suffix: for any two non-dot characters a and b, "a.NSb.NS" becomes "a.BOb.BO". |
| `DataFetcher.NoNseSurvives` | utils/data_fetcher.py:23 | For every symbol, the rewrite contains no ".NS" at any position: each occurrence is replaced. |
| `DataFetcher.FallbackPositions` | utils/data_fetcher.py:23 | For every symbol, the rewrite has the same length, each ".NS" becomes ".BO" (a 'B' one place and an 'O' two places after the start of an occurrence) and every other character is kept. |
| `DataFetcher.PlainSymbolFallback` | utils/data_fetcher.py:8-23 | A dot-free symbol with ".NS" appended falls back to the same symbol with ".BO". |
| `DataFetcher.BareSymbolFallback` | utils/data_fetcher.py:8-23 | "FOO" is requested as "FOO.NS" and falls back to "FOO.BO". |
| `DataFetcher.FetchStockDataWithFallback` | utils/data_fetcher.py:3-32 | Data is never returned empty, and at most two requests are made, the first for the normalised symbol. A non-empty primary frame is returned with no second request. The fallback is requested exactly when the primary failed and the symbol ends in ".NS", and a non-empty fallback frame is returned. Otherwise the error names the normalised symbol and the primary failure. |
| `Watchlist.Watchlist.constructor` | pages/watchlist.py:11-12 | A new session's watchlist is RELIANCE.NS, TCS.NS, HDFCBANK.NS, with no duplicates. |
| `Watchlist.Watchlist.Add` | pages/watchlist.py:18-21 | The new list is `AddSymbol` of the old one, and the no-duplicates invariant is kept. |
| `Watchlist.Watchlist.RemoveSelected` | pages/watchlist.py:24-29 | Only when the list is non-empty, the button is pressed and the selection is non-empty, the new list is the old one without the selected symbols. Otherwise it is unchanged. No duplicates either way. |
| `Watchlist.Upper` | pages/watchlist.py:19 | Upper-casing keeps the length, turns each ASCII lower-case letter into its capital (code point minus 32) and keeps every other character, so no lower-case letter remains. |
| `Watchlist.StripLeft` | pages/watchlist.py:19 | `lstrip` drops only a whitespace prefix and stops at a non-space character. |
| `Watchlist.StripRight` | pages/watchlist.py:19 | `rstrip` drops only a whitespace suffix and stops at a non-space character. |
| `Watchlist.StripSpec` | pages/watchlist.py:19 | `strip` returns an infix with only whitespace cut from each end, neither starting nor ending with whitespace. |
| `Watchlist.StripCuts` | pages/watchlist.py:19 | Names the cut points: the stripped text is `s[i..j]` with all-whitespace `s[..i]` and `s[j..]`. |
| `Watchlist.StripEmptyIffAllSpace` | pages/watchlist.py:19 | `strip` gives the empty string exactly when its input is all whitespace. |
| `Watchlist.UpperKeepsSpace` | pages/watchlist.py:19 | Upper-casing makes a string all whitespace exactly when it already was. |
| `Watchlist.BlankInputAddsNothing` | pages/watchlist.py:19-21 | The normalised symbol `upper().strip()` is empty exactly when the input is all whitespace, and such an input adds nothing. |
| `Watchlist.AddKeepsDistinct` | pages/watchlist.py:20-21 | Adding keeps the list free of duplicates. |
| `Watchlist.AddAppendsAtEnd` | pages/watchlist.py:18-21 | Adding keeps the old list as a prefix. It either changes nothing or appends the normalised input. It appends if and only if the button was pressed, the input is non-empty and the symbol is non-empty and not yet listed. |
| `Watchlist.RemoveFirstMultiset` | pages/watchlist.py:29 | `list.remove` takes away one copy of the symbol and nothing else. |
| `Watchlist.KeepUnselectedMembers` | pages/watchlist.py:26-29 | After removal a symbol is listed if and only if it was listed and not selected. |
| `Watchlist.KeepUnselectedDistinct` | pages/watchlist.py:26-29 | Removal keeps the list free of duplicates. |
| `Watchlist.RemoveIsFilter` | pages/watchlist.py:27-29 | On a duplicate-free list, each `remove` step of the loop equals filtering out one more selected symbol. Absent selections are no-ops and the rest keep their order. |
| `Scan.SortDescSorted` | pages/screener.py:47 | The sort's output is non-increasing in score. |
| `Scan.SortDescPermutation` | pages/screener.py:47 | The sort's output is a permutation of its input. |
| `Scan.SortDescStable` | pages/sector.py:48 | The sort is stable: for every score, the entries with that score keep their input order. |
| `Screener.RunScreener` | pages/screener.py:22-47 | The results are the selected symbols scored at or above `min_score`, in selection order. No results means the "no matches" branch. Otherwise the display is the stable descending sort: non-increasing, a permutation, ties in selection order. `min_score` lies in [5, 20]. |
| `Screener.PassingMembers` | pages/screener.py:25-41 | A result exists if and only if some selected symbol was fetched with data and scored at or above `min_score`, and it carries that symbol's score and signals. A fetch failure, no data or a scoring failure skips the symbol. |
| `Screener.PassingInSelectionOrder` | pages/screener.py:24-41 | Before sorting, the result symbols form a subsequence of the selection. |
| `Sector.Items` | pages/sector.py:26 | `stocks.items()` yields each (symbol, company) pair in the dict's insertion order. |
| `Sector.ScanSector` | pages/sector.py:25-53 | One sector's view is computed from its own items alone: the passing symbols, stably sorted, cut to ten rows of at most four signals. |
| `Sector.ShowTop` | pages/sector.py:47-59 | The display step returns exactly `Display` of the kept rows: "nothing passed" for none, otherwise the first ten of the stable sort with four signals at most. |
| `Sector.RunSectorAnalysis` | pages/sector.py:21-59 | There is one report per selected sector, in order. Each is computed from scratch from `sector_map.get(sector, {})`, with nothing carried over from earlier sectors. |
| `Sector.SectorPassingMembers` | pages/sector.py:26-45 | A sector row is kept if and only if its (symbol, company) item exists and its symbol scored at or above `min_score`, with that score and those signals. Any failure skips only that symbol. |
| `Sector.DisplayBounds` | pages/sector.py:47-53 | Nothing is shown exactly when no symbol passed. Otherwise min(10, n) rows are shown, non-increasing in score, each with at most four signals. The rows are the first ten of the stable sort, each truncated from a kept row. |
| `Sector.DisplayRows` | pages/sector.py:48-53 | For kept rows, min(10, n) rows are shown, the k-th being the truncation of the k-th row of the stable sort. |
| `Sector.DisplaySorted` | pages/sector.py:48-50 | The shown rows are non-increasing in score. |
| `Sector.DisplayFromHits` | pages/sector.py:45-53 | Every shown row is the truncation of a kept row. |
| `Sector.MissingSectorShowsNothing` | pages/sector.py:23 | A sector absent from the sector map leads to the "nothing passed" message. |
| `SymbolUniverse.AllSymbols` | utils/symbol_universe.py:40 | `all_symbols` is a well-formed dict whose keys are the distinct row symbols, in order of first appearance. |
| `SymbolUniverse.AllSymbolsKeys` | utils/symbol_universe.py:40 | A symbol is a key of `all_symbols` if and only if some row carries it. |
| `SymbolUniverse.AllSymbolsLastWins` | utils/symbol_universe.py:40 | For a repeated symbol, the company of the last row wins. |
| `SymbolUniverse.RowsOfSectorMembers` | utils/symbol_universe.py:45 | `df[df["sector"] == sector]` keeps a row if and only if it is a row of that sector. |
| `SymbolUniverse.SectorTable` | utils/symbol_universe.py:45-46 | Each inner table is a well-formed dict. |
| `SymbolUniverse.LoadAllSymbols` | utils/symbol_universe.py:40-48 | `all_symbols` is `AllSymbols` of the rows. The sector map is the dict filled, one distinct sector at a time in order of first appearance, with that sector's own table. |
| `SymbolUniverse.SectorMapSpec` | utils/symbol_universe.py:43-46 | The sector map is well-formed, its keys are the distinct sectors in order of first appearance, and each maps to the table built from that sector's rows. |
| `SymbolUniverse.SectorTableKeys` | utils/symbol_universe.py:45-46 | A sector's inner keys are exactly the symbols of the rows carrying that sector. |
| `SymbolUniverse.SectorTableLastWins` | utils/symbol_universe.py:45-46 | Within a sector, the company of the last row for a symbol wins. |
| `SymbolUniverse.SectorMapCoversAllSymbols` | utils/symbol_universe.py:40-46 | A symbol is a key of `all_symbols` if and only if it is in some sector's inner table: the inner key sets together are the keys of `all_symbols`. |
| `OrderedDict.Put` | utils/symbol_universe.py:46 | Assigning a key keeps the dict well-formed and updates only that key's value. A key already present keeps its position; a new key goes at the end. |
| `OrderedDict.PutNew` | utils/symbol_universe.py:46 | Assigning a key not yet present appends it to the key order. |
| `OrderedDict.TabulateLoop` | utils/symbol_universe.py:43-46 | Assigning `f(k)` to each key in turn, from an empty dict, gives `Tabulate(ks, f)`. |
| `OrderedDict.TabulateSpec` | utils/symbol_universe.py:43-46 | Over distinct keys, the tabulated dict is well-formed, keeps the keys in order and maps each key k to `f(k)`. |
| `OrderedDict.Get` | pages/sector.py:23 | `dict.get(k, default)` returns the stored value when present, else the default. |
| `OrderedDict.Unique` | utils/symbol_universe.py:44 | `unique()` returns each distinct value once, no more values than its input, and exactly the values of its input. |
| `OrderedDict.UniqueOrder` | utils/symbol_universe.py:44 | `unique()` lists values in order of first appearance: for each earlier value, some occurrence precedes every occurrence of each later value. |
| `OrderedDict.FromPairs` | utils/symbol_universe.py:40 | `dict(pairs)` is well-formed, its keys are the distinct first components in order of first appearance. |
| `OrderedDict.FromPairsLastWins` | utils/symbol_universe.py:40 | In `dict(pairs)` the last pair for a key gives its value. |
| `OrderedDict.FromPairsAssigned` | utils/symbol_universe.py:40 | The mapping of `dict(pairs)` is the left-to-right fold of the assignments. |

## Left out

- The market-data provider (`yf.Ticker(...).history`) is a network call. It is a parameter of the fetch that returns a frame of bars or raises; its exception texts are opaque strings, and `period` is passed through unchanged.
- `_safe_indicators` and the indicator library it calls (`utils.technicals`) are not part of this model. Indicator values are inputs, given per row.
- `utils.score_engine.score_stock` and `utils.charting.create_tv_chart` are not part of this model. The fetch-and-score result of each symbol is a given outcome, and the frames kept beside the results only feed the charts, so they are dropped.
- Monte Carlo simulation: the repository has only a placeholder message for it.
- Streamlit rendering: titles, widgets, metrics, charts, the Plotly figure of the technical-analysis tab, spinners, error and info messages, and the `time.sleep` throttling are UI and timing concerns. The same goes for the default multiselect choices (the first 15 symbols, the first 3 sectors).
- The watchlist page's per-symbol display loop (pages/watchlist.py:33-63) only renders fetch, score and chart results.
- `app.py`, `pages/single_stock.py` and the one-shot CSV conversion scripts under `assets/data/` are UI or file I/O.
- Reading the symbol CSV and caching it (`pd.read_csv`, `st.cache_data`) are I/O. The model starts from the rows already read, with every cell a string.
- Blank CSV cells are not modelled. pandas reads a blank sector as NaN. `unique()` keeps that NaN, but `df["sector"] == nan` matches no row, so the NaN key maps to `{}` and that row's symbol is in no inner table. `SymbolUniverse.SectorMapCoversAllSymbols` therefore holds only for a CSV without blank sectors.
- The default `period="6mo"` of `fetch_stock_data_with_fallback`, used by the screener, sector and watchlist pages, is not modelled. The fetch takes the period as a parameter, and those pages see only each symbol's fetch-and-score outcome.
- IEEE rounding and NaN propagation are not modelled: prices and scores are exact reals, and a NaN cell is `None`.
- AdvancedAnalysis.SimplePrediction: requires every close to be positive, so that `pct_change` is defined. A NaN or missing Close column is therefore not modelled, and the Close default of 0 in the lookup cannot be reached.
- AdvancedAnalysis.Cell: the lookup's `except Exception` fallback (a value `float()` cannot convert, a duplicated index label) is not modelled.
- Watchlist.Upper: only ASCII letters are upper-cased. Unicode case mapping, including changes of length such as "ß" to "SS", is not modelled.
- Watchlist.StripLeft: only the ASCII whitespace characters of `str.isspace` are stripped. Unicode spaces are not modelled; `Watchlist.StripRight` has the same restriction.
- Sector.ScanSector: `filtered_results.sort(...)` in place becomes a reassignment with the sorted value. No other reference to that list exists.
- Screener.RunScreener: outcomes are a function of the symbol, so one symbol has one outcome within a run. This holds because a multiselect has no repeated entries.

/**
 * What the screener and sector pages share: the outcome of fetching and
 * scoring one symbol, the `min_score` filter, and Python's stable sort by
 * score in descending order (`sorted(..., reverse=True)` / `list.sort`).
 */
module Scan {

  /**
   * Fetching and scoring one symbol: the fetch raised, returned no data
   * (None or an empty frame), the scorer raised, or a score with its signals.
   */
  datatype SymbolOutcome =
    | FetchFailed(message: string)
    | NoData
    | ScoreFailed(message: string)
    | Scored(score: real, signals: seq<string>)

  /** The bounds of the `min_score` slider. */
  const MinScoreLow: int := 5
  const MinScoreHigh: int := 20

  /** A symbol is kept exactly when it was scored and its score reaches `min_score`. */
  predicate Passes(o: SymbolOutcome, minScore: int)
  {
    o.Scored? && o.score >= minScore as real
  }

  // Stable descending sort on a real-valued key.

  /** Inserts `x` before the first element whose key is not above `key(x)`. */
  function Insert<T>(x: T, s: seq<T>, key: T -> real): (r: seq<T>)
    ensures |r| == |s| + 1
  {
    if s == [] || key(s[0]) <= key(x) then [x] + s
    else [s[0]] + Insert(x, s[1..], key)
  }

  /** Insertion sort: each element goes before the later elements of equal key. */
  function SortDesc<T>(s: seq<T>, key: T -> real): (r: seq<T>)
    ensures |r| == |s|
  {
    if s == [] then [] else Insert(s[0], SortDesc(s[1..], key), key)
  }

  predicate NonIncreasing<T>(s: seq<T>, key: T -> real)
  {
    forall i, j :: 0 <= i < j < |s| ==> key(s[i]) >= key(s[j])
  }

  /** The subsequence of the elements whose key is `v`. */
  function WithKey<T>(s: seq<T>, key: T -> real, v: real): seq<T>
  {
    if s == [] then []
    else (if key(s[0]) == v then [s[0]] else []) + WithKey(s[1..], key, v)
  }

  lemma {:induction false} InsertMultiset<T>(x: T, s: seq<T>, key: T -> real)
    ensures multiset(Insert(x, s, key)) == multiset(s) + multiset{x}
  {
    if s != [] && key(s[0]) > key(x) {
      InsertMultiset(x, s[1..], key);
      assert s == [s[0]] + s[1..];
    }
  }

  /** Inserting an element no larger than a bound into elements no larger than it stays below the bound. */
  lemma {:induction false} InsertBelow<T>(x: T, s: seq<T>, key: T -> real, b: real)
    requires forall i :: 0 <= i < |s| ==> key(s[i]) <= b
    requires key(x) <= b
    ensures forall i :: 0 <= i < |Insert(x, s, key)| ==> key(Insert(x, s, key)[i]) <= b
  {
    if s != [] && key(s[0]) > key(x) {
      InsertBelow(x, s[1..], key, b);
      var r := Insert(x, s[1..], key);
      assert Insert(x, s, key) == [s[0]] + r;
    }
  }

  lemma {:induction false} InsertSorted<T>(x: T, s: seq<T>, key: T -> real)
    requires NonIncreasing(s, key)
    ensures NonIncreasing(Insert(x, s, key), key)
  {
    if s != [] && key(s[0]) > key(x) {
      var t := s[1..];
      assert NonIncreasing(t, key);
      InsertSorted(x, t, key);
      forall i | 0 <= i < |t| ensures key(t[i]) <= key(s[0]) {
        assert t[i] == s[i + 1];
      }
      InsertBelow(x, t, key, key(s[0]));
      var r := Insert(x, t, key);
      var q := [s[0]] + r;
      assert Insert(x, s, key) == q;
      forall i, j | 0 <= i < j < |q| ensures key(q[i]) >= key(q[j]) {
        assert q[j] == r[j - 1];
        if i > 0 {
          assert q[i] == r[i - 1];
        }
      }
    }
  }

  lemma WithKeyCons<T>(x: T, s: seq<T>, key: T -> real, v: real)
    ensures WithKey([x] + s, key, v) == (if key(x) == v then [x] else []) + WithKey(s, key, v)
  {
    assert ([x] + s)[1..] == s;
  }

  lemma {:induction false} InsertStable<T>(x: T, s: seq<T>, key: T -> real, v: real)
    ensures WithKey(Insert(x, s, key), key, v) == (if key(x) == v then [x] else []) + WithKey(s, key, v)
  {
    if s != [] && key(s[0]) > key(x) {
      var r := Insert(x, s[1..], key);
      InsertStable(x, s[1..], key, v);
      WithKeyCons(s[0], r, key, v);
      WithKeyCons(s[0], s[1..], key, v);
      assert [s[0]] + s[1..] == s;
    } else {
      WithKeyCons(x, s, key, v);
    }
  }

  /** The result is ordered by non-increasing key. */
  lemma {:induction false} SortDescSorted<T>(s: seq<T>, key: T -> real)
    ensures NonIncreasing(SortDesc(s, key), key)
  {
    if s != [] {
      SortDescSorted(s[1..], key);
      InsertSorted(s[0], SortDesc(s[1..], key), key);
    }
  }

  /** The result is a permutation of the input. */
  lemma {:induction false} SortDescPermutation<T>(s: seq<T>, key: T -> real)
    ensures multiset(SortDesc(s, key)) == multiset(s)
  {
    if s != [] {
      SortDescPermutation(s[1..], key);
      InsertMultiset(s[0], SortDesc(s[1..], key), key);
      assert s == [s[0]] + s[1..];
    }
  }

  /** The sort is stable: the elements of any one key keep their input order. */
  lemma {:induction false} SortDescStable<T>(s: seq<T>, key: T -> real, v: real)
    ensures WithKey(SortDesc(s, key), key, v) == WithKey(s, key, v)
  {
    if s != [] {
      SortDescStable(s[1..], key, v);
      InsertStable(s[0], SortDesc(s[1..], key), key, v);
    }
  }
}

/**
 * The watchlist page's list of symbols, kept in the session: created with
 * three default symbols, extended one normalised symbol at a time, and
 * shrunk by removing a selection.
 */
module Watchlist {
  import opened Wrappers

  const DefaultSymbols: seq<string> := ["RELIANCE.NS", "TCS.NS", "HDFCBANK.NS"]

  /** `str.upper` on one character (ASCII letters). */
  function UpperChar(c: char): char
  {
    if 'a' <= c <= 'z' then (c as int - 32) as char else c
  }

  /** `str.upper()`: each ASCII lower-case letter becomes its capital, every other character stays. */
  function Upper(s: string): (r: string)
    ensures |r| == |s|
    ensures forall i :: 0 <= i < |s| ==>
      ('a' <= s[i] <= 'z' ==> r[i] as int == s[i] as int - 32) && (!('a' <= s[i] <= 'z') ==> r[i] == s[i])
    ensures forall i :: 0 <= i < |r| ==> !('a' <= r[i] <= 'z')
  {
    seq(|s|, i requires 0 <= i < |s| => UpperChar(s[i]))
  }

  /** The ASCII characters for which Python's `str.isspace` holds. */
  predicate IsSpace(c: char)
  {
    c == ' ' || '\t' <= c <= '\r' || '\U{1C}' <= c <= '\U{1F}'
  }

  predicate AllSpace(s: string)
  {
    forall i :: 0 <= i < |s| ==> IsSpace(s[i])
  }

  /** `str.lstrip()`: a suffix of `s`, all that it drops is whitespace. */
  function StripLeft(s: string): (r: string)
    ensures |r| <= |s| && r == s[|s| - |r|..] && AllSpace(s[..|s| - |r|])
    ensures r == [] || !IsSpace(r[0])
  {
    if s != [] && IsSpace(s[0]) then
      var r := StripLeft(s[1..]);
      assert s[1..][..|s| - 1 - |r|] == s[1..|s| - |r|];
      r
    else s
  }

  /** `str.rstrip()`: a prefix of `s`, all that it drops is whitespace. */
  function StripRight(s: string): (r: string)
    ensures |r| <= |s| && r == s[..|r|] && AllSpace(s[|r|..])
    ensures r == [] || !IsSpace(r[|r| - 1])
  {
    if s != [] && IsSpace(s[|s| - 1]) then
      var r := StripRight(s[..|s| - 1]);
      assert s[..|s| - 1][|r|..] + [s[|s| - 1]] == s[|r|..];
      r
    else s
  }

  /** `str.strip()`. */
  function Strip(s: string): string
  {
    StripRight(StripLeft(s))
  }

  /** `new_stock.upper().strip()`. */
  function NormalizeInput(input: string): string
  {
    Strip(Upper(input))
  }

  /** The list after "Add to Watchlist": the normalised symbol appended unless empty or present. */
  function AddSymbol(symbols: seq<string>, input: string, pressed: bool): seq<string>
  {
    if pressed && input != "" then
      var sym := NormalizeInput(input);
      if sym != "" && sym !in symbols then symbols + [sym] else symbols
    else symbols
  }

  /** `list.remove(x)`: drops the first occurrence of `x`; a no-op here when `x` is absent. */
  function RemoveFirst(s: seq<string>, x: string): seq<string>
  {
    if s == [] then []
    else if s[0] == x then s[1..]
    else [s[0]] + RemoveFirst(s[1..], x)
  }

  /** `list.remove` takes away exactly one copy of a listed symbol and nothing else. */
  lemma {:induction false} RemoveFirstMultiset(s: seq<string>, x: string)
    ensures multiset(RemoveFirst(s, x)) == multiset(s) - multiset{x}
  {
    if s != [] {
      assert s == [s[0]] + s[1..];
      if s[0] != x {
        RemoveFirstMultiset(s[1..], x);
      }
    }
  }

  /** The elements of `s` that are not selected, in their order in `s`. */
  function KeepUnselected(s: seq<string>, selection: seq<string>): seq<string>
  {
    if s == [] then []
    else (if s[0] in selection then [] else [s[0]]) + KeepUnselected(s[1..], selection)
  }

  class Watchlist {
    var symbols: seq<string>

    /** No symbol is listed twice. */
    ghost predicate Valid()
      reads this
    {
      Distinct(symbols)
    }

    /** The session has no watchlist yet: it starts with the defaults. */
    constructor ()
      ensures Valid() && symbols == DefaultSymbols
    {
      symbols := DefaultSymbols;
    }

    /** "Add to Watchlist" with the text field's contents. */
    method Add(input: string, pressed: bool)
      requires Valid()
      modifies this
      ensures Valid()
      ensures symbols == AddSymbol(old(symbols), input, pressed)
    {
      if pressed && input != "" {
        var sym := NormalizeInput(input);
        if sym != "" && sym !in symbols {
          AddKeepsDistinct(symbols, input, pressed);
          symbols := symbols + [sym];
        }
      }
    }

    /** "Remove Selected" with the multiselect's contents (offered only for a non-empty list). */
    method RemoveSelected(selection: seq<string>, pressed: bool)
      requires Valid()
      modifies this
      ensures Valid()
      ensures symbols == if old(symbols) != [] && pressed && selection != []
                         then KeepUnselected(old(symbols), selection) else old(symbols)
    {
      if symbols != [] && pressed && selection != [] {
        ghost var original := symbols;
        assert selection[..0] == [];
        KeepNothingSelected(original);
        for i := 0 to |selection|
          invariant Distinct(symbols)
          invariant symbols == KeepUnselected(original, selection[..i])
        {
          var stock := selection[i];
          RemoveIsFilter(original, selection[..i], stock);
          assert selection[..i + 1] == selection[..i] + [stock];
          if stock in symbols {
            symbols := RemoveFirst(symbols, stock);
          } else {
            assert RemoveFirst(symbols, stock) == symbols by { RemoveAbsent(symbols, stock); }
          }
          KeepUnselectedDistinct(original, selection[..i + 1]);
        }
        assert selection[..|selection|] == selection;
      }
    }
  }

  /** Adding keeps the list free of duplicates. */
  lemma AddKeepsDistinct(symbols: seq<string>, input: string, pressed: bool)
    requires Distinct(symbols)
    ensures Distinct(AddSymbol(symbols, input, pressed))
  {
  }

  /**
   * Adding appends at the end or changes nothing: the old list is a prefix,
   * and the new symbol is the normalised input, non-empty and not already listed.
   */
  lemma AddAppendsAtEnd(symbols: seq<string>, input: string, pressed: bool)
    ensures var r := AddSymbol(symbols, input, pressed);
      && r[..|symbols|] == symbols
      && (r == symbols || (r == symbols + [NormalizeInput(input)] && pressed && input != ""
                           && NormalizeInput(input) != "" && NormalizeInput(input) !in symbols))
    ensures !pressed ==> AddSymbol(symbols, input, pressed) == symbols
    ensures pressed && input != "" && NormalizeInput(input) != "" && NormalizeInput(input) !in symbols
        ==> AddSymbol(symbols, input, pressed) == symbols + [NormalizeInput(input)]
  {
  }

  /** Where `strip` cuts: the result is the infix `s[i..j]`, with only whitespace outside it. */
  lemma StripCuts(s: string) returns (i: nat, j: nat)
    ensures i <= j <= |s| && Strip(s) == s[i..j] && AllSpace(s[..i]) && AllSpace(s[j..])
  {
    var l := StripLeft(s);
    var r := StripRight(l);
    i := |s| - |l|;
    j := i + |r|;
    assert l == s[i..];
    assert r == s[i..j];
    assert s[j..] == l[|r|..];
  }

  /**
   * Stripping cuts only whitespace, from both ends, and leaves a string that
   * neither starts nor ends with whitespace.
   */
  lemma StripSpec(s: string)
    ensures var r := Strip(s);
      && (r == [] || (!IsSpace(r[0]) && !IsSpace(r[|r| - 1])))
      && exists i, j :: 0 <= i <= j <= |s| && r == s[i..j] && AllSpace(s[..i]) && AllSpace(s[j..])
  {
    var i, j := StripCuts(s);
    var l := StripLeft(s);
    var r := StripRight(l);
    if r != [] {
      assert r[0] == l[0];
    }
  }

  /** Stripping gives the empty string exactly when the input is all whitespace. */
  lemma StripEmptyIffAllSpace(s: string)
    ensures Strip(s) == [] <==> AllSpace(s)
  {
    var l := StripLeft(s);
    var r := StripRight(l);
    var i := |s| - |l|;
    if r != [] {
      assert r[0] == l[0] == s[i];
    } else {
      assert AllSpace(l[|r|..]);
      assert l == [];
      forall k | 0 <= k < |s| ensures IsSpace(s[k]) {
        assert s[k] == s[..i][k];
      }
    }
  }

  /** Upper-casing neither creates nor removes whitespace. */
  lemma UpperKeepsSpace(s: string)
    ensures AllSpace(Upper(s)) <==> AllSpace(s)
  {
    forall i | 0 <= i < |s|
      ensures IsSpace(Upper(s)[i]) <==> IsSpace(s[i])
    {
      if 'a' <= s[i] <= 'z' {
        assert 'A' <= Upper(s)[i] <= 'Z';
      }
    }
  }

  /** The normalised symbol is empty exactly when the input is all whitespace, and then nothing is added. */
  lemma BlankInputAddsNothing(symbols: seq<string>, input: string, pressed: bool)
    ensures NormalizeInput(input) == "" <==> AllSpace(input)
    ensures AllSpace(input) ==> AddSymbol(symbols, input, pressed) == symbols
  {
    StripEmptyIffAllSpace(Upper(input));
    UpperKeepsSpace(input);
  }

  lemma {:induction false} RemoveAbsent(s: seq<string>, x: string)
    requires x !in s
    ensures RemoveFirst(s, x) == s
  {
    if s != [] {
      RemoveAbsent(s[1..], x);
    }
  }

  lemma {:induction false} KeepNothingSelected(s: seq<string>)
    ensures KeepUnselected(s, []) == s
  {
    if s != [] {
      KeepNothingSelected(s[1..]);
    }
  }

  /** Removing keeps exactly the listed symbols that were not selected. */
  lemma {:induction false} KeepUnselectedMembers(s: seq<string>, selection: seq<string>, x: string)
    ensures x in KeepUnselected(s, selection) <==> x in s && x !in selection
  {
    if s != [] {
      KeepUnselectedMembers(s[1..], selection, x);
      assert x in s <==> x == s[0] || x in s[1..];
    }
  }

  lemma {:induction false} KeepUnselectedDistinct(s: seq<string>, selection: seq<string>)
    requires Distinct(s)
    ensures Distinct(KeepUnselected(s, selection))
  {
    if s != [] {
      assert Distinct(s[1..]);
      KeepUnselectedDistinct(s[1..], selection);
      KeepUnselectedMembers(s[1..], selection, s[0]);
      var t := KeepUnselected(s[1..], selection);
      if s[0] !in selection {
        forall i, j | 0 <= i < j < |[s[0]] + t| ensures ([s[0]] + t)[i] != ([s[0]] + t)[j] {
          if i == 0 {
            assert ([s[0]] + t)[j] == t[j - 1];
            assert t[j - 1] in t;
          }
        }
      }
    }
  }

  /** Selecting one more symbol: `list.remove` on a duplicate-free list is the filter. */
  lemma {:induction false} RemoveIsFilter(s: seq<string>, selection: seq<string>, x: string)
    requires Distinct(s)
    ensures RemoveFirst(KeepUnselected(s, selection), x) == KeepUnselected(s, selection + [x])
  {
    if s != [] {
      var h, rest := s[0], s[1..];
      assert Distinct(rest);
      RemoveIsFilter(rest, selection, x);
      var t := KeepUnselected(rest, selection);
      assert h in selection + [x] <==> h in selection || h == x;
      if h in selection {
        assert KeepUnselected(s, selection) == t;
      } else if h == x {
        assert x !in rest;
        assert KeepUnselected(s, selection) == [x] + t;
        assert RemoveFirst([x] + t, x) == t;
        KeepSkipsAbsent(rest, selection, x);
      } else {
        assert KeepUnselected(s, selection) == [h] + t;
        assert RemoveFirst([h] + t, x) == [h] + RemoveFirst(t, x);
      }
    }
  }

  lemma {:induction false} KeepSkipsAbsent(s: seq<string>, selection: seq<string>, x: string)
    requires x !in s
    ensures KeepUnselected(s, selection + [x]) == KeepUnselected(s, selection)
  {
    if s != [] {
      KeepSkipsAbsent(s[1..], selection, x);
    }
  }
}

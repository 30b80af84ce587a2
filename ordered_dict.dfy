/**
 * Python's `dict`: a finite map that remembers the order in which its keys
 * were first inserted. Assigning to a key that is already present replaces
 * its value and keeps its position; a new key goes at the end.
 */
module OrderedDict {
  import opened Wrappers

  /** Every dictionary of the model is keyed by strings (symbols, sectors). */
  type Key = string

  /** `keys` is the iteration order, `entries` the key-value mapping. */
  datatype Dict<V> = Dict(keys: seq<Key>, entries: map<Key, V>)

  /** The keys in order are exactly the keys of the mapping, each once. */
  ghost predicate Valid<V>(d: Dict<V>)
  {
    Distinct(d.keys) && (forall k :: k in d.entries <==> k in d.keys)
  }

  function Empty<V>(): (d: Dict<V>)
    ensures Valid(d) && d.keys == []
  {
    Dict([], map[])
  }

  /** `d[k] = v`. */
  function Put<V>(d: Dict<V>, k: Key, v: V): (r: Dict<V>)
    ensures Valid(d) ==> Valid(r)
    ensures r.entries == d.entries[k := v]
    ensures k in d.entries ==> r.keys == d.keys
    ensures k !in d.entries ==> r.keys == d.keys + [k]
  {
    if k in d.entries then Dict(d.keys, d.entries[k := v])
    else Dict(d.keys + [k], d.entries[k := v])
  }

  /** Assigning a key not yet present appends it to the key order. */
  lemma PutNew<V>(d: Dict<V>, k: Key, v: V)
    requires Valid(d) && k !in d.entries
    ensures Valid(Put(d, k, v))
    ensures Put(d, k, v).keys == d.keys + [k]
  {
  }

  /** The dict built by assigning `f(k)` to each key of `ks` in turn. */
  function Tabulate<V>(ks: seq<Key>, f: Key -> V): (d: Dict<V>)
  {
    if ks == [] then Empty()
    else Put(Tabulate(ks[..|ks| - 1], f), ks[|ks| - 1], f(ks[|ks| - 1]))
  }

  /** `for k in ks: d[k] = f(k)`, starting from an empty dict. */
  method TabulateLoop<V>(ks: seq<Key>, f: Key -> V) returns (d: Dict<V>)
    ensures d == Tabulate(ks, f)
  {
    d := Empty();
    for i := 0 to |ks|
      invariant d == Tabulate(ks[..i], f)
    {
      assert ks[..i + 1][..i] == ks[..i];
      d := Put(d, ks[i], f(ks[i]));
    }
    assert ks[..|ks|] == ks;
  }

  /** Over distinct keys, the table is well-formed, keeps the keys in order and maps each to `f` of it. */
  lemma {:induction false} TabulateSpec<V>(ks: seq<Key>, f: Key -> V)
    requires Distinct(ks)
    ensures Valid(Tabulate(ks, f))
    ensures Tabulate(ks, f).keys == ks
    ensures forall k :: k in Tabulate(ks, f).entries ==> Tabulate(ks, f).entries[k] == f(k)
  {
    if ks != [] {
      var p := ks[..|ks| - 1];
      TabulateSpec(p, f);
      assert ks[|ks| - 1] !in p;
      PutNew(Tabulate(p, f), ks[|ks| - 1], f(ks[|ks| - 1]));
    }
  }

  /** `d.get(k, default)`. */
  function Get<V>(d: Dict<V>, k: Key, default: V): (v: V)
    ensures k in d.entries ==> v == d.entries[k]
    ensures k !in d.entries ==> v == default
  {
    if k in d.entries then d.entries[k] else default
  }

  /** The distinct elements of `s` in order of first appearance (`pandas.Series.unique`). */
  function Unique(s: seq<Key>): (u: seq<Key>)
    ensures Distinct(u)
    ensures forall x :: x in u <==> x in s
    ensures |u| <= |s|
  {
    if s == [] then []
    else
      var p := Unique(s[..|s| - 1]);
      if s[|s| - 1] in p then p else p + [s[|s| - 1]]
  }

  /** In `s`, some occurrence of `x` comes before every occurrence of `y`. */
  ghost predicate Before(s: seq<Key>, x: Key, y: Key)
  {
    exists a :: 0 <= a < |s| && s[a] == x && y !in s[..a]
  }

  /** `unique()` lists the values in the order in which they first appear. */
  lemma {:induction false} UniqueOrder(s: seq<Key>)
    ensures forall i, j :: 0 <= i < j < |Unique(s)| ==> Before(s, Unique(s)[i], Unique(s)[j])
  {
    if s != [] {
      var p := s[..|s| - 1];
      var z := s[|s| - 1];
      UniqueOrder(p);
      var up := Unique(p);
      var u := Unique(s);
      forall i, j | 0 <= i < j < |u| ensures Before(s, u[i], u[j]) {
        assert u[i] == up[i];
        if j < |up| {
          assert u[j] == up[j];
          assert Before(p, up[i], up[j]);
          var a :| 0 <= a < |p| && p[a] == up[i] && up[j] !in p[..a];
          assert s[..a] == p[..a];
          assert s[a] == p[a];
        } else {
          assert u[j] == z && z !in p;
          assert up[i] in p;
          var a :| 0 <= a < |p| && p[a] == up[i];
          assert s[..a] == p[..a];
          assert s[a] == p[a];
        }
      }
    }
  }

  function Firsts<V>(ps: seq<(Key, V)>): (ks: seq<Key>)
    ensures |ks| == |ps|
    ensures forall i :: 0 <= i < |ps| ==> ks[i] == ps[i].0
  {
    seq(|ps|, i requires 0 <= i < |ps| => ps[i].0)
  }

  /** `dict(ps)` for a sequence of key-value pairs: inserted left to right. */
  function FromPairs<V>(ps: seq<(Key, V)>): (d: Dict<V>)
    ensures Valid(d)
    ensures d.keys == Unique(Firsts(ps))
    ensures forall k :: k in d.entries <==> k in Firsts(ps)
  {
    if ps == [] then Empty()
    else
      var last := ps[|ps| - 1];
      assert Firsts(ps[..|ps| - 1]) == Firsts(ps)[..|ps| - 1];
      Put(FromPairs(ps[..|ps| - 1]), last.0, last.1)
  }

  /** `dict(ps)`'s mapping as a plain fold over the pairs. */
  function Assigned<V>(ps: seq<(Key, V)>): map<Key, V>
  {
    if ps == [] then map[] else Assigned(ps[..|ps| - 1])[ps[|ps| - 1].0 := ps[|ps| - 1].1]
  }

  lemma {:induction false} FromPairsAssigned<V>(ps: seq<(Key, V)>)
    ensures FromPairs(ps).entries == Assigned(ps)
  {
    if ps != [] {
      FromPairsAssigned(ps[..|ps| - 1]);
    }
  }

  lemma AssignedSnoc<V>(ps: seq<(Key, V)>, k: Key, v: V)
    ensures Assigned(ps + [(k, v)]) == Assigned(ps)[k := v]
  {
    assert (ps + [(k, v)])[..|ps|] == ps;
  }

  lemma {:induction false} AssignedLastWins<V>(ps: seq<(Key, V)>, i: nat)
    requires i < |ps|
    requires forall j :: i < j < |ps| ==> ps[j].0 != ps[i].0
    ensures ps[i].0 in Assigned(ps) && Assigned(ps)[ps[i].0] == ps[i].1
  {
    var n := |ps| - 1;
    if i < n {
      var p := ps[..n];
      assert p[i] == ps[i];
      AssignedLastWins(p, i);
    }
  }

  /** With repeated keys the value of the last pair carrying the key wins. */
  lemma FromPairsLastWins<V>(ps: seq<(Key, V)>, i: nat)
    requires i < |ps|
    requires forall j :: i < j < |ps| ==> ps[j].0 != ps[i].0
    ensures ps[i].0 in FromPairs(ps).entries
    ensures FromPairs(ps).entries[ps[i].0] == ps[i].1
  {
    FromPairsAssigned(ps);
    AssignedLastWins(ps, i);
  }
}

/**
 * The symbol universe: the rows of the symbol CSV (symbol, company, sector,
 * exchange), turned into a symbol -> company dictionary and a
 * sector -> (symbol -> company) dictionary.
 */
module SymbolUniverse {
  import opened OrderedDict

  /** One CSV row, already read. */
  datatype Row = Row(symbol: string, company: string, sector: string, exchange: string)

  /** The `symbol` column. */
  function Symbols(rows: seq<Row>): (s: seq<string>)
    ensures |s| == |rows| && forall i :: 0 <= i < |rows| ==> s[i] == rows[i].symbol
  {
    seq(|rows|, i requires 0 <= i < |rows| => rows[i].symbol)
  }

  /** The `sector` column. */
  function Sectors(rows: seq<Row>): (s: seq<string>)
    ensures |s| == |rows| && forall i :: 0 <= i < |rows| ==> s[i] == rows[i].sector
  {
    seq(|rows|, i requires 0 <= i < |rows| => rows[i].sector)
  }

  /** `zip(df["symbol"], df["company"])`. */
  function SymbolCompanyPairs(rows: seq<Row>): (ps: seq<(Key, string)>)
    ensures |ps| == |rows|
    ensures forall i :: 0 <= i < |rows| ==> ps[i] == (rows[i].symbol, rows[i].company)
  {
    seq(|rows|, i requires 0 <= i < |rows| => (rows[i].symbol, rows[i].company))
  }

  /** `all_symbols = dict(zip(df["symbol"], df["company"]))`. */
  function AllSymbols(rows: seq<Row>): (d: Dict<string>)
    ensures Valid(d)
    ensures d.keys == Unique(Symbols(rows))
  {
    assert Firsts(SymbolCompanyPairs(rows)) == Symbols(rows);
    FromPairs(SymbolCompanyPairs(rows))
  }

  /** `df[df["sector"] == sector]`: the rows of one sector, in file order. */
  function RowsOfSector(rows: seq<Row>, sector: string): seq<Row>
  {
    if rows == [] then []
    else
      var last := rows[|rows| - 1];
      RowsOfSector(rows[..|rows| - 1], sector) + (if last.sector == sector then [last] else [])
  }

  /** The filter keeps exactly the rows of that sector. */
  lemma {:induction false} RowsOfSectorMembers(rows: seq<Row>, sector: string, r: Row)
    ensures r in RowsOfSector(rows, sector) <==> r in rows && r.sector == sector
  {
    if rows != [] {
      var p := rows[..|rows| - 1];
      RowsOfSectorMembers(p, sector, r);
      assert rows == p + [rows[|rows| - 1]];
    }
  }

  /** `dict(sector_df.values)` over the symbol and company columns of that sector's rows. */
  function SectorTable(rows: seq<Row>, sector: string): (d: Dict<string>)
    ensures Valid(d)
  {
    AllSymbols(RowsOfSector(rows, sector))
  }

  /**
   * `load_all_symbols` after the CSV has been read: the symbol table, and the
   * sector map filled one distinct sector at a time.
   */
  method LoadAllSymbols(rows: seq<Row>) returns (allSymbols: Dict<string>, sectorMap: Dict<Dict<string>>)
    ensures allSymbols == AllSymbols(rows)
    ensures sectorMap == Tabulate(Unique(Sectors(rows)), s => SectorTable(rows, s))
  {
    allSymbols := AllSymbols(rows);
    var tableOf := s => SectorTable(rows, s);
    sectorMap := TabulateLoop(Unique(Sectors(rows)), tableOf);
  }

  /** The sector map's keys are the distinct sectors in order of first appearance, each with its own table. */
  lemma SectorMapSpec(rows: seq<Row>)
    ensures var m := Tabulate(Unique(Sectors(rows)), s => SectorTable(rows, s));
      && Valid(m) && m.keys == Unique(Sectors(rows))
      && forall s :: s in m.entries ==> m.entries[s] == SectorTable(rows, s)
  {
    TabulateSpec(Unique(Sectors(rows)), s => SectorTable(rows, s));
  }

  /** The keys of `all_symbols` are exactly the symbols of the rows. */
  lemma AllSymbolsKeys(rows: seq<Row>, k: string)
    ensures k in AllSymbols(rows).entries <==> exists i :: 0 <= i < |rows| && rows[i].symbol == k
  {
    assert k in Symbols(rows) <==> exists i :: 0 <= i < |rows| && Symbols(rows)[i] == k;
  }

  /** A symbol on several rows takes the company of the last of them. */
  lemma AllSymbolsLastWins(rows: seq<Row>, i: nat)
    requires i < |rows|
    requires forall j :: i < j < |rows| ==> rows[j].symbol != rows[i].symbol
    ensures rows[i].symbol in AllSymbols(rows).entries
    ensures AllSymbols(rows).entries[rows[i].symbol] == rows[i].company
  {
    FromPairsLastWins(SymbolCompanyPairs(rows), i);
  }

  /** A sector's table holds exactly the symbols of the rows carrying that sector. */
  lemma SectorTableKeys(rows: seq<Row>, sector: string, k: string)
    ensures k in SectorTable(rows, sector).entries
        <==> exists i :: 0 <= i < |rows| && rows[i].symbol == k && rows[i].sector == sector
  {
    var sub := RowsOfSector(rows, sector);
    AllSymbolsKeys(sub, k);
    if k in SectorTable(rows, sector).entries {
      var j :| 0 <= j < |sub| && sub[j].symbol == k;
      RowsOfSectorMembers(rows, sector, sub[j]);
    }
    if exists i :: 0 <= i < |rows| && rows[i].symbol == k && rows[i].sector == sector {
      var i :| 0 <= i < |rows| && rows[i].symbol == k && rows[i].sector == sector;
      RowsOfSectorMembers(rows, sector, rows[i]);
    }
  }

  lemma PairsSnoc(rows: seq<Row>, r: Row)
    ensures SymbolCompanyPairs(rows + [r]) == SymbolCompanyPairs(rows) + [(r.symbol, r.company)]
  {
  }

  /** The mapping of a sector's table, as a fold over the sector's rows. */
  function SectorAssigned(rows: seq<Row>, sector: string): map<string, string>
  {
    Assigned(SymbolCompanyPairs(RowsOfSector(rows, sector)))
  }

  lemma SectorAssignedStep(rows: seq<Row>, sector: string)
    requires rows != []
    ensures var last := rows[|rows| - 1];
      SectorAssigned(rows, sector)
      == if last.sector == sector then SectorAssigned(rows[..|rows| - 1], sector)[last.symbol := last.company]
         else SectorAssigned(rows[..|rows| - 1], sector)
  {
    var p, last := rows[..|rows| - 1], rows[|rows| - 1];
    var sub := RowsOfSector(p, sector);
    if last.sector == sector {
      assert RowsOfSector(rows, sector) == sub + [last];
      PairsSnoc(sub, last);
      AssignedSnoc(SymbolCompanyPairs(sub), last.symbol, last.company);
    } else {
      assert RowsOfSector(rows, sector) == sub;
    }
  }

  lemma {:induction false} SectorAssignedLastWins(rows: seq<Row>, sector: string, i: nat)
    requires i < |rows| && rows[i].sector == sector
    requires forall j :: i < j < |rows| && rows[j].sector == sector ==> rows[j].symbol != rows[i].symbol
    ensures rows[i].symbol in SectorAssigned(rows, sector)
    ensures SectorAssigned(rows, sector)[rows[i].symbol] == rows[i].company
  {
    var n := |rows| - 1;
    SectorAssignedStep(rows, sector);
    if i < n {
      var p := rows[..n];
      assert p[i] == rows[i];
      SectorAssignedLastWins(p, sector, i);
    }
  }

  /** Within a sector, the company of the last row for a symbol wins. */
  lemma SectorTableLastWins(rows: seq<Row>, sector: string, i: nat)
    requires i < |rows| && rows[i].sector == sector
    requires forall j :: i < j < |rows| && rows[j].sector == sector ==> rows[j].symbol != rows[i].symbol
    ensures rows[i].symbol in SectorTable(rows, sector).entries
    ensures SectorTable(rows, sector).entries[rows[i].symbol] == rows[i].company
  {
    FromPairsAssigned(SymbolCompanyPairs(RowsOfSector(rows, sector)));
    SectorAssignedLastWins(rows, sector, i);
  }

  /**
   * Every row's symbol is in its own sector's table, and every symbol of a
   * sector table is a known symbol: the inner key sets together are exactly
   * the keys of `all_symbols`.
   */
  lemma SectorMapCoversAllSymbols(rows: seq<Row>, k: string)
    ensures k in AllSymbols(rows).entries
        <==> exists s :: s in Unique(Sectors(rows)) && k in SectorTable(rows, s).entries
  {
    AllSymbolsKeys(rows, k);
    if k in AllSymbols(rows).entries {
      var i :| 0 <= i < |rows| && rows[i].symbol == k;
      assert Sectors(rows)[i] == rows[i].sector;
      SectorTableKeys(rows, rows[i].sector, k);
    }
    if exists s :: s in Unique(Sectors(rows)) && k in SectorTable(rows, s).entries {
      var s :| s in Unique(Sectors(rows)) && k in SectorTable(rows, s).entries;
      SectorTableKeys(rows, s, k);
    }
  }
}

/**
 The translation grid through a CSV file: `key -> locale -> string` written as a header of locales
 and a row per key, and read back row by row onto the grid a tenant already has.
 A file is its rows of cells, header first.
 */
module TranslationsCsv {
  import opened Outcomes
  import opened CsvText
  import Ordered
  import opened GridImport

  type Row = seq<string>

  const FALLBACK_LOCALE := "en"
  const KEY := "key"

  // --- Export ------------------------------------------------------------------------------------------

  function LocalesOf(grid: Grid): set<string> {
    set key, locale | key in grid && locale in grid[key] :: locale
  }

  function HeaderRow(columns: seq<string>): Row {
    [KEY] + seq(|columns|, i requires 0 <= i < |columns| => EscapeFormula(columns[i]))
  }

  function GridCell(column: string, strings: Strings): string {
    if column in strings then EscapeFormula(strings[column]) else ""
  }

  function GridRow(columns: seq<string>, key: string, strings: Strings): Row {
    [EscapeFormula(key)] + seq(|columns|, i requires 0 <= i < |columns| => GridCell(columns[i], strings))
  }

  /** The file holds the grid: a header of columns, then a row per key. */
  predicate Holds(file: seq<Row>, grid: Grid, columns: seq<string>, keys: seq<string>) {
    && |file| == 1 + |keys| && file[0] == HeaderRow(columns)
    && (forall i :: 0 <= i < |keys| ==> keys[i] in grid)
    && (forall i :: 0 <= i < |keys| ==> file[i + 1] == GridRow(columns, keys[i], grid[keys[i]]))
  }

  method ExportRow(columns: seq<string>, key: string, strings: Strings) returns (record: Row)
    ensures record == GridRow(columns, key, strings)
  {
    record := [EscapeFormula(key)];
    for c := 0 to |columns|
      invariant |record| == c + 1 && record[0] == EscapeFormula(key)
      invariant forall i :: 0 <= i < c ==> record[i + 1] == GridCell(columns[i], strings)
    {
      record := record + [GridCell(columns[c], strings)];
    }
  }

  method ExportRows(grid: Grid, columns: seq<string>, keys: seq<string>) returns (file: seq<Row>)
    requires forall i :: 0 <= i < |keys| ==> keys[i] in grid
    ensures Holds(file, grid, columns, keys)
  {
    file := [HeaderRow(columns)];
    for i := 0 to |keys|
      invariant Holds(file, grid, columns, keys[..i])
    {
      var record := ExportRow(columns, keys[i], grid[keys[i]]);
      file := file + [record];
    }
    assert keys[..|keys|] == keys;
  }

  /** The file: the union of the locales as the header, then a row per key, both in text order. */
  method Export(grid: Grid) returns (file: seq<Row>)
    ensures Holds(file, grid, Ordered.Texts(LocalesOf(grid)), Ordered.Texts(grid.Keys))
  {
    file := ExportRows(grid, Ordered.Texts(LocalesOf(grid)), Ordered.Texts(grid.Keys));
  }

  // --- Import ---------------------------------------------------------------------------------------------

  function Cell(row: Row, column: nat): string {
    if column < |row| then row[column] else ""
  }

  /** The strings the first `n` locale columns of a row give; a later column of a locale wins, and an
      empty cell or an empty locale gives nothing. */
  function RowStrings(locales: seq<string>, row: Row, n: nat): Strings
    requires n <= |locales|
  {
    if n == 0 then map[]
    else
      var before := RowStrings(locales, row, n - 1);
      var value := ReadCell(Cell(row, n));
      if locales[n - 1] == "" || value == "" then before else before[locales[n - 1] := value]
  }

  predicate HasFallback(strings: Strings) {
    FALLBACK_LOCALE in strings && Trim(strings[FALLBACK_LOCALE]) != ""
  }

  /** A row is rejected for want of a key, or of a string to fall back to. */
  function ReadingOf(locales: seq<string>, row: Row): Reading {
    var key := ReadCell(Cell(row, 0));
    if key == "" then Rejected(key, "empty key")
    else
      var strings := RowStrings(locales, row, |locales|);
      if HasFallback(strings) then Entry(key, strings) else Rejected(key, "missing en value")
  }

  method ReadRow(locales: seq<string>, row: Row) returns (reading: Reading)
    ensures reading == ReadingOf(locales, row)
  {
    var key := ReadCell(Cell(row, 0));
    if key == "" {
      return Rejected(key, "empty key");
    }
    var values: Strings := map[];
    for i := 0 to |locales|
      invariant values == RowStrings(locales, row, i)
    {
      var value := ReadCell(Cell(row, i + 1));
      if locales[i] != "" && value != "" {
        values := values[locales[i] := value];
      }
    }
    reading := if HasFallback(values) then Entry(key, values) else Rejected(key, "missing en value");
  }

  datatype ImportError = BadHeader

  predicate GoodHeader(file: seq<Row>) {
    file != [] && file[0] != [] && Trim(file[0][0]) == KEY
  }

  function LocalesRead(header: Row): seq<string>
    requires |header| > 0
  {
    seq(|header| - 1, i requires 0 <= i < |header| - 1 => ReadCell(header[i + 1]))
  }

  function Readings(locales: seq<string>, rows: seq<Row>): seq<Reading> {
    seq(|rows|, i requires 0 <= i < |rows| => ReadingOf(locales, rows[i]))
  }

  /** Reads a file onto the tenant's grid: the grid the valid rows leave, and a verdict per row. A file
      whose header is not the export's is an error; a bad row is only a rejection. */
  method Parse(file: seq<Row>, existing: Grid) returns (result: Result<(Grid, Report), ImportError>)
    ensures result.Ok? <==> GoodHeader(file)
    ensures result.Ok? ==>
              var (merged, report) := result.value;
              var readings := Readings(LocalesRead(file[0]), file[1..]);
              merged == Overridden(existing, readings) && Reports(existing, readings, report)
  {
    hide Overridden, Reports, ReadingOf, LocalesRead;
    if file == [] || file[0] == [] || Trim(file[0][0]) != KEY {
      return Err(BadHeader);
    }
    var locales := LocalesRead(file[0]);
    var readings := [];
    for n := 1 to |file|
      invariant |readings| == n - 1
      invariant forall i :: 0 <= i < n - 1 ==> readings[i] == ReadingOf(locales, file[1..][i])
    {
      var reading := ReadRow(locales, file[n]);
      readings := readings + [reading];
    }
    assert readings == Readings(locales, file[1..]);
    var merged, report := Merge(existing, readings);
    return Ok((merged, report));
  }

  /** An applied import cannot break the fallback rule of a grid that met it. */
  lemma ImportKeepsFallback(existing: Grid, locales: seq<string>, rows: seq<Row>)
    requires forall key :: key in existing ==> HasFallback(existing[key])
    ensures var merged := Overridden(existing, Readings(locales, rows));
            forall key :: key in merged ==> HasFallback(merged[key])
  {
    ImportKeepsRule(existing, Readings(locales, rows), HasFallback);
  }

  // --- Round trip ---------------------------------------------------------------------------------------------

  predicate Survives(text: string) {
    text != "" && Kept(text)
  }

  /** Every key, locale and string survives a cell, and every key has a string to fall back to. */
  predicate Portable(grid: Grid) {
    forall key :: key in grid ==>
      && Survives(key) && HasFallback(grid[key])
      && forall locale :: locale in grid[key] ==> Survives(locale) && Survives(grid[key][locale])
  }

  lemma GridCellReads(column: string, strings: Strings)
    requires forall locale :: locale in strings ==> Survives(strings[locale])
    ensures ReadCell(GridCell(column, strings)) == if column in strings then strings[column] else ""
  {
    if column in strings {
      CellRoundTrip(strings[column]);
    }
  }

  function Picked(columns: seq<string>, strings: Strings): Strings {
    map locale | locale in strings && locale in columns :: strings[locale]
  }

  lemma PickedStep(columns: seq<string>, column: string, strings: Strings)
    ensures Picked(columns + [column], strings) ==
            if column in strings then Picked(columns, strings)[column := strings[column]] else Picked(columns, strings)
  {
  }

  lemma PickedNone(strings: Strings)
    ensures Picked([], strings) == map[]
  {
  }

  lemma {:induction false} GridRowReads(columns: seq<string>, key: string, strings: Strings, n: nat)
    requires n <= |columns| && forall i :: 0 <= i < |columns| ==> columns[i] != ""
    requires forall locale :: locale in strings ==> Survives(strings[locale])
    ensures RowStrings(columns, GridRow(columns, key, strings), n) == Picked(columns[..n], strings)
  {
    hide ReadCell, GridCell, Picked;
    PickedNone(strings);
    assert columns[..0] == [];
    if n > 0 {
      var row := GridRow(columns, key, strings);
      GridRowReads(columns, key, strings, n - 1);
      assert Cell(row, n) == GridCell(columns[n - 1], strings);
      GridCellReads(columns[n - 1], strings);
      assert columns[..n] == columns[..n - 1] + [columns[n - 1]];
      PickedStep(columns[..n - 1], columns[n - 1], strings);
    }
  }

  lemma HeaderReads(columns: seq<string>)
    requires forall i :: 0 <= i < |columns| ==> Survives(columns[i])
    ensures Trim(HeaderRow(columns)[0]) == KEY
    ensures LocalesRead(HeaderRow(columns)) == columns
  {
    TrimLaws(KEY);
    var read := LocalesRead(HeaderRow(columns));
    forall i | 0 <= i < |columns| ensures read[i] == columns[i] {
      assert HeaderRow(columns)[i + 1] == EscapeFormula(columns[i]);
      CellRoundTrip(columns[i]);
    }
  }

  lemma RowOfGrid(grid: Grid, columns: seq<string>, key: string)
    requires Portable(grid) && key in grid
    requires forall i :: 0 <= i < |columns| ==> columns[i] != ""
    requires forall locale :: locale in grid[key] ==> locale in columns
    ensures ReadingOf(columns, GridRow(columns, key, grid[key])) == Entry(key, grid[key])
  {
    CellRoundTrip(key);
    assert Cell(GridRow(columns, key, grid[key]), 0) == EscapeFormula(key);
    GridRowReads(columns, key, grid[key], |columns|);
    assert columns[..|columns|] == columns;
    assert Picked(columns, grid[key]) == grid[key];
  }

  lemma {:induction false} RowStringsSurvive(locales: seq<string>, row: Row, n: nat)
    requires n <= |locales| && forall i :: 0 <= i < |locales| ==> Kept(locales[i])
    ensures var strings := RowStrings(locales, row, n);
            forall locale :: locale in strings ==> Survives(locale) && Survives(strings[locale])
  {
    hide ReadCell, Kept;
    if n > 0 {
      RowStringsSurvive(locales, row, n - 1);
      ReadIsKept(Cell(row, n));
    }
  }

  /** Whatever the file, what it imports into an empty grid is portable. */
  lemma ImportedIsPortable(header: Row, rows: seq<Row>)
    requires |header| > 0
    ensures Portable(Overridden(map[], Readings(LocalesRead(header), rows)))
  {
    hide ReadCell, Kept, HasFallback;
    var locales := LocalesRead(header);
    var readings := Readings(locales, rows);
    forall i | 0 <= i < |locales| ensures Kept(locales[i]) { ReadIsKept(header[i + 1]); }
    forall i | 0 <= i < |readings| && readings[i].Entry?
      ensures Survives(readings[i].key) && HasFallback(readings[i].strings)
      ensures forall locale :: locale in readings[i].strings ==>
              Survives(locale) && Survives(readings[i].strings[locale])
    {
      ReadIsKept(Cell(rows[i], 0));
      RowStringsSurvive(locales, rows[i], |locales|);
    }
  }

  /** A portable grid's file reads back row by row as the grid, with no row rejected. */
  lemma PortableGridImports(grid: Grid, columns: seq<string>, keys: seq<string>, file: seq<Row>)
    requires Portable(grid) && Holds(file, grid, columns, keys)
    requires forall locale :: locale in columns <==> locale in LocalesOf(grid)
    requires forall key :: key in keys <==> key in grid
    ensures Overridden(map[], Readings(LocalesRead(file[0]), file[1..])) == grid
    ensures forall reading :: reading in Readings(LocalesRead(file[0]), file[1..]) ==> reading.Entry?
  {
    forall i | 0 <= i < |columns| ensures Survives(columns[i]) {
      assert columns[i] in LocalesOf(grid);
    }
    HeaderReads(columns);
    var readings := Readings(columns, file[1..]);
    forall i | 0 <= i < |keys| ensures readings[i] == Entry(keys[i], grid[keys[i]]) {
      assert forall locale :: locale in grid[keys[i]] ==> locale in LocalesOf(grid);
      RowOfGrid(grid, columns, keys[i]);
    }
    ImportedAsRead(grid, keys, readings);
  }

  /** An exported grid imports into an empty one as the keys, locales and strings it was made from, exactly
      when the grid is portable; and then no row is rejected. */
  lemma ExportedGridImports(grid: Grid, columns: seq<string>, keys: seq<string>, file: seq<Row>)
    requires Holds(file, grid, columns, keys)
    requires forall locale :: locale in columns <==> locale in LocalesOf(grid)
    requires forall key :: key in keys <==> key in grid
    ensures GoodHeader(file)
    ensures Overridden(map[], Readings(LocalesRead(file[0]), file[1..])) == grid <==> Portable(grid)
    ensures Portable(grid) ==> forall reading :: reading in Readings(LocalesRead(file[0]), file[1..]) ==> reading.Entry?
  {
    TrimLaws(KEY);
    hide Overridden, Portable, Readings, LocalesRead, ReadingOf;
    ImportedIsPortable(file[0], file[1..]);
    if Portable(grid) { PortableGridImports(grid, columns, keys, file); }
  }

  /** Writing a grid out and reading it into an empty one gives the same grid back, with nothing rejected,
      exactly when the grid is portable. */
  method RoundTrip(grid: Grid) returns (back: Grid, report: Report)
    ensures back == grid <==> Portable(grid)
    ensures Portable(grid) ==> forall i :: 0 <= i < |report.rows| ==> !report.rows[i].action.Reject?
  {
    back, report := RoundTripInOrder(grid, Ordered.Texts(LocalesOf(grid)), Ordered.Texts(grid.Keys));
  }

  method RoundTripInOrder(grid: Grid, columns: seq<string>, keys: seq<string>) returns (back: Grid, report: Report)
    requires forall locale :: locale in columns <==> locale in LocalesOf(grid)
    requires forall key :: key in keys <==> key in grid
    ensures back == grid <==> Portable(grid)
    ensures Portable(grid) ==> forall i :: 0 <= i < |report.rows| ==> !report.rows[i].action.Reject?
  {
    var file := ExportRows(grid, columns, keys);
    ExportedGridImports(grid, columns, keys, file);
    hide Portable, Overridden, LocalesRead, ReadingOf;
    var parsed := Parse(file, map[]);
    back, report := parsed.value.0, parsed.value.1;
    ghost var readings := Readings(LocalesRead(file[0]), file[1..]);
    if Portable(grid) {
      forall i | 0 <= i < |report.rows| ensures !report.rows[i].action.Reject? {
        assert readings[i] in readings;
      }
    }
  }
}

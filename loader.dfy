/**
 * The loader (`load_data`, dashboard.py lines 20-80): header normalisation,
 * coercion of the numeric columns, trimming of the string columns, the
 * pay-level category, and dropping the rows without a salary.
 *
 * The sheet is what `pd.read_excel` hands over: a header row and rows of
 * cells, each blank or holding the text `astype(str)` would produce.
 */
module Loader {
  import opened Wrappers
  import opened Text
  import opened Numerals
  import opened Levels
  import opened Frame
  import opened Schema

  /** A cell as read from the sheet. */
  datatype RawCell = Blank | Entry(text: string)

  datatype Sheet = Sheet(header: seq<string>, rows: seq<seq<RawCell>>)

  /** Why loading fails: a rewritten column that occurs twice, or a required column that is absent. */
  datatype LoadError = DuplicateColumn(name: string) | MissingColumns(names: seq<string>)

  predicate Rectangular(sheet: Sheet) {
    forall i :: 0 <= i < |sheet.rows| ==> |sheet.rows[i]| == |sheet.header|
  }

  // ---------------------------------------------------------------------
  // Cleaning one cell
  // ---------------------------------------------------------------------

  /** `astype(str)`: a blank cell becomes the text "nan". */
  function AsStr(c: RawCell): string {
    match c
    case Blank => "nan"
    case Entry(s) => s
  }

  /** A sheet cell the loader leaves alone. */
  function FromRaw(c: RawCell): Cell {
    match c
    case Blank => Nan
    case Entry(s) => Text(s)
  }

  /** `pd.to_numeric(errors='coerce')`: a number, or missing when the text does not parse. */
  function Coerce(s: string): (r: Cell)
    ensures r.Number? || r.Nan?
    ensures r.Number? <==> ParseNumber(s).Some?
  {
    match ParseNumber(s)
    case Some(x) => Number(x)
    case None => Nan
  }

  /** The text a numeric column's cell is turned into before parsing (lines 51-60). */
  function NumericText(col: string, c: RawCell): (r: string)
    ensures ',' !in r
    ensures col in CurrencyColumns && col != PayRatio ==> '$' !in r
    ensures col == PayRatio ==> ':' !in r
  {
    var s := AsStr(c);
    if col == PayRatio then Before(RemoveAll(s, ','), ':')
    else if col in CurrencyColumns then RemoveAll(RemoveAll(s, '$'), ',')
    else RemoveAll(s, ',')
  }

  function CleanNumeric(col: string, c: RawCell): (r: Cell)
    ensures r.Number? || r.Nan?
    ensures r.Number? <==> ParseNumber(NumericText(col, c)).Some?
  {
    Coerce(NumericText(col, c))
  }

  /** A string column's cell: its text, stripped (line 69). */
  function CleanString(c: RawCell): (r: Cell)
    ensures r.Text? && |r.s| <= |AsStr(c)|
    ensures r.s == [] || (!IsSpace(r.s[0]) && !IsSpace(r.s[|r.s| - 1]))
  {
    Text(Strip(AsStr(c)))
  }

  /** `pd.Categorical` over the five levels: a label outside them becomes missing (lines 72-75). */
  function ToCategory(c: Cell): (r: Cell)
    ensures r.Level? || r.Nan?
    ensures r.Level? ==> c == r || (c.Text? && c.s == Name(r.level))
  {
    match c
    case Text(s) => (match Parse(s) case Some(l) => Level(l) case None => Nan)
    case Level(l) => Level(l)
    case _ => Nan
  }

  /**
   * What the loader makes of one cell, by the name of its column: a number
   * or missing in a numeric column, a category or missing in the pay-level
   * column, text in the other string columns, and the sheet's own cell in
   * any column the loader does not rewrite.
   */
  function CleanCell(name: string, c: RawCell): (r: Cell)
    ensures name in NumericColumns ==> r.Number? || r.Nan?
    ensures name == PayLevelColumn ==> r.Level? || r.Nan?
    ensures name in StringColumns && name != PayLevelColumn ==> r.Text?
    ensures name !in ProcessedColumns ==> r == FromRaw(c)
  {
    PayLevelIsString();
    if name in NumericColumns then CleanNumeric(name, c)
    else if name == PayLevelColumn then ToCategory(CleanString(c))
    else if name in StringColumns then CleanString(c)
    else FromRaw(c)
  }

  function CleanRow(h: seq<string>, row: seq<RawCell>): (r: Row)
    requires |row| == |h|
    ensures |r| == |h|
  {
    seq(|h|, c requires 0 <= c < |h| => CleanCell(h[c], row[c]))
  }

  function CleanRows(h: seq<string>, rows: seq<seq<RawCell>>): (r: seq<Row>)
    requires forall i :: 0 <= i < |rows| ==> |rows[i]| == |h|
    ensures |r| == |rows|
  {
    seq(|rows|, i requires 0 <= i < |rows| => CleanRow(h, rows[i]))
  }

  /** The `dropna` test: no required column of the row is missing. */
  predicate Complete(h: seq<string>, row: Row) {
    forall c :: 0 <= c < |row| && c < |h| && h[c] in RequiredColumns ==> !row[c].Nan?
  }

  function Completeness(h: seq<string>): Row -> bool {
    row => Complete(h, row)
  }

  // ---------------------------------------------------------------------
  // When loading fails
  // ---------------------------------------------------------------------

  /** The first of cols that occurs more than once in h. */
  function FirstDuplicate(cols: seq<string>, h: seq<string>): (r: Option<string>)
    ensures r.Some? ==> r.value in cols && Occurrences(h, r.value) > 1
  {
    if cols == [] then None
    else if Occurrences(h, cols[0]) > 1 then Some(cols[0])
    else FirstDuplicate(cols[1..], h)
  }

  /** The required columns h lacks, in the order `dropna` lists them. */
  function Missing(h: seq<string>): (r: seq<string>)
    ensures forall x :: x in r <==> x in RequiredColumns && x !in h
  {
    (if CeoName in h then [] else [CeoName]) + (if Salary in h then [] else [Salary])
  }

  /**
   * The error the loader raises for a normalised header, if any: a rewritten
   * column that occurs twice fails at its rewrite (a frame with two such
   * columns has no `.str`); otherwise `dropna` fails when a required column
   * is absent.
   */
  function LoadCheck(h: seq<string>): (r: Option<LoadError>)
    ensures r.Some? && r.value.DuplicateColumn? ==> r.value.name in ProcessedColumns && Occurrences(h, r.value.name) > 1
    ensures r.Some? && r.value.MissingColumns? ==>
              r.value.names != [] && forall x :: x in r.value.names <==> x in RequiredColumns && x !in h
  {
    match FirstDuplicate(ProcessedColumns, h)
    case Some(x) => Some(DuplicateColumn(x))
    case None => if Missing(h) == [] then None else Some(MissingColumns(Missing(h)))
  }

  lemma {:induction false} FirstDuplicateAt(cols: seq<string>, h: seq<string>, k: nat)
    requires k < |cols| && Occurrences(h, cols[k]) > 1
    requires forall x :: x in cols[..k] ==> Occurrences(h, x) <= 1
    ensures FirstDuplicate(cols, h) == Some(cols[k])
  {
    if k > 0 {
      assert cols[0] in cols[..k];
      assert forall x :: x in cols[1..][..k - 1] ==> x in cols[..k];
      FirstDuplicateAt(cols[1..], h, k - 1);
    }
  }

  /** No rewritten column is duplicated exactly when FirstDuplicate finds none. */
  lemma {:induction false} FirstDuplicateNone(cols: seq<string>, h: seq<string>)
    ensures FirstDuplicate(cols, h) == None <==> forall x :: x in cols ==> Occurrences(h, x) <= 1
  {
    if cols != [] {
      assert cols[0] in cols;
      assert forall x :: x in cols[1..] ==> x in cols;
      assert forall x :: x in cols ==> x == cols[0] || x in cols[1..];
      FirstDuplicateNone(cols[1..], h);
    }
  }

  /** Loading succeeds exactly when every rewritten column occurs at most once and both required columns are there. */
  lemma LoadCheckNone(h: seq<string>)
    ensures LoadCheck(h) == None <==>
              (forall x :: x in ProcessedColumns ==> Occurrences(h, x) <= 1) && CeoName in h && Salary in h
  {
    FirstDuplicateNone(ProcessedColumns, h);
    assert Missing(h) == [] <==> CeoName in h && Salary in h by {
      assert CeoName in RequiredColumns && Salary in RequiredColumns;
    }
  }

  // ---------------------------------------------------------------------
  // What a loaded table looks like
  // ---------------------------------------------------------------------

  /** The kinds of cell each column holds after loading. */
  predicate CellFits(name: string, cell: Cell) {
    if name in NumericColumns then (cell.Number? || cell.Nan?) && (name == Salary ==> cell.Number?)
    else if name == PayLevelColumn then cell.Level? || cell.Nan?
    else if name in StringColumns then cell.Text?
    else true
  }

  /**
   * The loader's guarantee about its result: rectangular, the required
   * columns present, every rewritten column there at most once, every
   * salary a number, and every cell of the kind its column promises.
   */
  predicate Loaded(t: Table) {
    && WellFormed(t)
    && CeoName in t.header && Salary in t.header
    && (forall x :: x in ProcessedColumns ==> Occurrences(t.header, x) <= 1)
    && (forall row, c :: row in t.rows && 0 <= c < |t.header| ==> CellFits(t.header[c], row[c]))
  }

  /** Every cleaned cell is of the kind its column promises, salary aside; a salary is a number or missing. */
  lemma CleanCellFits(name: string, c: RawCell)
    ensures name != Salary ==> CellFits(name, CleanCell(name, c))
    ensures name == Salary ==> CleanCell(name, c).Number? || CleanCell(name, c).Nan?
  {
    if name == Salary {
      assert name in NumericColumns;
    }
  }

  /** A cleaned row that passes `dropna` is a loaded row. */
  lemma CompleteRowFits(h: seq<string>, row: seq<RawCell>)
    requires |row| == |h| && Complete(h, CleanRow(h, row))
    ensures forall c :: 0 <= c < |h| ==> CellFits(h[c], CleanRow(h, row)[c])
  {
    forall c | 0 <= c < |h| ensures CellFits(h[c], CleanRow(h, row)[c]) {
      CleanCellFits(h[c], row[c]);
      if h[c] == Salary {
        assert Salary in RequiredColumns;
      }
    }
  }

  // ---------------------------------------------------------------------
  // The loader
  // ---------------------------------------------------------------------

  /** A rewritten column's cell, as its loop rewrites it from the sheet's text (lines 49-69). */
  function Rewritten(name: string, c: RawCell): Cell {
    if name in NumericColumns then CleanNumeric(name, c) else CleanString(c)
  }

  /** A cell once the first m rewritten columns have been rewritten. */
  function Stage(m: nat, name: string, c: RawCell): Cell
    requires m <= |ProcessedColumns|
  {
    if name in ProcessedColumns[..m] then Rewritten(name, c) else FromRaw(c)
  }

  lemma StageStep(m: nat, name: string, c: RawCell)
    requires m < |ProcessedColumns|
    ensures Stage(m + 1, name, c) == if name == ProcessedColumns[m] then Rewritten(name, c) else Stage(m, name, c)
  {
    assert ProcessedColumns[..m + 1] == ProcessedColumns[..m] + [ProcessedColumns[m]];
  }

  /** After every column is rewritten and the levels categorised, each cell is the cleaned cell. */
  lemma StageFinal(name: string, c: RawCell)
    ensures name != PayLevelColumn ==> Stage(|ProcessedColumns|, name, c) == CleanCell(name, c)
    ensures name == PayLevelColumn ==> ToCategory(Stage(|ProcessedColumns|, name, c)) == CleanCell(name, c)
  {
    assert ProcessedColumns[..|ProcessedColumns|] == ProcessedColumns;
    assert PayLevelColumn in StringColumns;
  }

  /** `df[col] = vals`: column j of every row replaced, everything else unchanged. */
  method SetColumn(rows: seq<Row>, j: nat, vals: seq<Cell>) returns (out: seq<Row>)
    requires |vals| == |rows|
    requires forall i :: 0 <= i < |rows| ==> j < |rows[i]|
    ensures |out| == |rows|
    ensures forall i :: 0 <= i < |rows| ==> |out[i]| == |rows[i]|
    ensures forall i, c :: 0 <= i < |rows| && 0 <= c < |rows[i]| ==>
              out[i][c] == if c == j then vals[i] else rows[i][c]
  {
    out := rows;
    for i := 0 to |rows|
      invariant |out| == |rows|
      invariant forall i' :: 0 <= i' < |rows| ==> |out[i']| == |rows[i']|
      invariant forall i', c :: 0 <= i' < |rows| && 0 <= c < |rows[i']| ==>
                  out[i'][c] == if c == j && i' < i then vals[i'] else rows[i'][c]
    {
      out := out[i := out[i][j := vals[i]]];
    }
  }

  /** One pass of a cleaning loop: the column called col, which occurs once, rewritten from the sheet. */
  method RewriteColumn(header: seq<string>, sheet: seq<seq<RawCell>>, rows: seq<Row>, col: string)
    returns (out: seq<Row>)
    requires |rows| == |sheet|
    requires forall i :: 0 <= i < |rows| ==> |rows[i]| == |header| && |sheet[i]| == |header|
    requires Occurrences(header, col) <= 1
    ensures |out| == |rows| && forall i :: 0 <= i < |out| ==> |out[i]| == |header|
    ensures forall i, c :: 0 <= i < |rows| && 0 <= c < |header| ==>
              out[i][c] == if header[c] == col then Rewritten(col, sheet[i][c]) else rows[i][c]
  {
    match IndexOf(header, col)
    case None =>
      out := rows;
    case Some(j) =>
      var vals := seq(|rows|, i requires 0 <= i < |rows| => Rewritten(col, sheet[i][j]));
      out := SetColumn(rows, j, vals);
      forall c | 0 <= c < |header| && header[c] == col ensures c == j {
        OccursOnce(header, col, j, c);
      }
  }

  /** The category step (lines 72-75): the pay-level column, which occurs at most once, cast to the category. */
  method Categorise(header: seq<string>, rows: seq<Row>) returns (out: seq<Row>)
    requires forall i :: 0 <= i < |rows| ==> |rows[i]| == |header|
    requires Occurrences(header, PayLevelColumn) <= 1
    ensures |out| == |rows| && forall i :: 0 <= i < |out| ==> |out[i]| == |header|
    ensures forall i, c :: 0 <= i < |rows| && 0 <= c < |header| ==>
              out[i][c] == if header[c] == PayLevelColumn then ToCategory(rows[i][c]) else rows[i][c]
  {
    match IndexOf(header, PayLevelColumn)
    case None =>
      out := rows;
    case Some(j) =>
      var vals := seq(|rows|, i requires 0 <= i < |rows| => ToCategory(rows[i][j]));
      out := SetColumn(rows, j, vals);
      forall c | 0 <= c < |header| && header[c] == PayLevelColumn ensures c == j {
        OccursOnce(header, PayLevelColumn, j, c);
      }
  }

  /** `dropna(subset=[CEO_Name, Salary])`: the complete rows, in order (line 78). */
  method DropIncomplete(header: seq<string>, rows: seq<Row>) returns (kept: seq<Row>)
    ensures kept == Keep(rows, Completeness(header))
  {
    kept := [];
    for i := 0 to |rows|
      invariant kept == Keep(rows[..i], Completeness(header))
    {
      assert rows[..i + 1][..i] == rows[..i];
      if Complete(header, rows[i]) {
        kept := kept + [rows[i]];
      }
    }
    assert rows[..|rows|] == rows;
  }

  /**
   * The cleaning loops of `load_data` (lines 49-75): every rewritten column
   * cleaned in turn, then the pay levels categorised. They fail at the first
   * rewritten column that occurs twice; otherwise every row is cleaned.
   */
  method CleanColumns(header: seq<string>, sheet: seq<seq<RawCell>>) returns (r: Result<seq<Row>, string>)
    requires forall i :: 0 <= i < |sheet| ==> |sheet[i]| == |header|
    ensures r.Failure? <==> FirstDuplicate(ProcessedColumns, header).Some?
    ensures r.Failure? ==> r.error == FirstDuplicate(ProcessedColumns, header).value
    ensures r.Success? ==> r.value == CleanRows(header, sheet)
  {
    var n, w := |sheet|, |header|;
    var rows: seq<Row> := seq(n, i requires 0 <= i < n => seq(w, c requires 0 <= c < w => FromRaw(sheet[i][c])));
    assert ProcessedColumns[..0] == [];

    // Numeric columns (lines 49-63), then string columns (lines 66-69).
    var m := 0;
    while m < |ProcessedColumns|
      invariant m <= |ProcessedColumns|
      invariant |rows| == n && forall i :: 0 <= i < n ==> |rows[i]| == w
      invariant forall x :: x in ProcessedColumns[..m] ==> Occurrences(header, x) <= 1
      invariant forall i, c :: 0 <= i < n && 0 <= c < w ==> rows[i][c] == Stage(m, header[c], sheet[i][c])
    {
      var col := ProcessedColumns[m];
      assert ProcessedColumns[..m + 1] == ProcessedColumns[..m] + [col];
      if Occurrences(header, col) > 1 {
        FirstDuplicateAt(ProcessedColumns, header, m);
        return Failure(col);
      }
      rows := RewriteColumn(header, sheet, rows, col);
      forall i, c | 0 <= i < n && 0 <= c < w ensures rows[i][c] == Stage(m + 1, header[c], sheet[i][c]) {
        StageStep(m, header[c], sheet[i][c]);
      }
      m := m + 1;
    }
    assert ProcessedColumns[..m] == ProcessedColumns;
    FirstDuplicateNone(ProcessedColumns, header);
    assert PayLevelColumn in ProcessedColumns;

    rows := Categorise(header, rows);
    forall i | 0 <= i < n ensures rows[i] == CleanRow(header, sheet[i]) {
      forall c | 0 <= c < w ensures rows[i][c] == CleanCell(header[c], sheet[i][c]) {
        StageFinal(header[c], sheet[i][c]);
      }
    }
    return Success(rows);
  }

  /**
   * `load_data` on a sheet: fails exactly as LoadCheck says; otherwise the
   * header is the normalised one and the rows are the cleaned sheet rows
   * that pass `dropna`, in their sheet order.
   */
  method LoadData(sheet: Sheet) returns (r: Result<Table, LoadError>)
    requires Rectangular(sheet)
    ensures r.Failure? <==> LoadCheck(NormaliseHeader(sheet.header)).Some?
    ensures r.Failure? ==> r.error == LoadCheck(NormaliseHeader(sheet.header)).value
    ensures r.Success? ==> r.value == Loading(sheet)
    ensures r.Success? ==> Loaded(r.value)
  {
    var header := NormaliseHeader(sheet.header);
    var cleaned := CleanColumns(header, sheet.rows);
    if cleaned.Failure? {
      return Failure(DuplicateColumn(cleaned.error));
    }
    var missing := Missing(header);
    if missing != [] {
      return Failure(MissingColumns(missing));
    }
    var kept := DropIncomplete(header, cleaned.value);
    r := Success(Table(header, kept));
    LoadCheckNone(header);
    LoadedResult(sheet);
  }

  /** The table `load_data` returns when it succeeds: the normalised header over the cleaned complete rows. */
  function Loading(sheet: Sheet): (r: Table)
    requires Rectangular(sheet)
    ensures r.header == NormaliseHeader(sheet.header) && |r.rows| <= |sheet.rows|
    ensures forall row :: row in r.rows ==> Complete(r.header, row)
  {
    var h := NormaliseHeader(sheet.header);
    Table(h, Keep(CleanRows(h, sheet.rows), Completeness(h)))
  }

  /** The loader's result is a loaded table. */
  lemma LoadedResult(sheet: Sheet)
    requires Rectangular(sheet)
    requires LoadCheck(NormaliseHeader(sheet.header)) == None
    ensures Loaded(Loading(sheet))
  {
    var h := NormaliseHeader(sheet.header);
    LoadCheckNone(h);
    KeptRowsFit(h, sheet.rows);
  }

  /** The cleaned rows that pass `dropna` have the header's width and cell kinds. */
  lemma KeptRowsFit(h: seq<string>, rows: seq<seq<RawCell>>)
    requires forall i :: 0 <= i < |rows| ==> |rows[i]| == |h|
    ensures forall row :: row in Keep(CleanRows(h, rows), Completeness(h)) ==>
              |row| == |h| && forall c :: 0 <= c < |h| ==> CellFits(h[c], row[c])
  {
    var cleaned := CleanRows(h, rows);
    forall row | row in Keep(cleaned, Completeness(h))
      ensures |row| == |h| && forall c :: 0 <= c < |h| ==> CellFits(h[c], row[c])
    {
      assert row in cleaned && Complete(h, row);
      var i :| 0 <= i < |cleaned| && cleaned[i] == row;
      CompleteRowFits(h, rows[i]);
    }
  }

  // ---------------------------------------------------------------------
  // What cleaning does to individual cells
  // ---------------------------------------------------------------------

  /** A thousands-grouped whole number, the way the sheet writes counts, reads back as that number in every numeric column. */
  lemma GroupedNumber(col: string, n: nat)
    requires col in NumericColumns
    ensures CleanCell(col, Entry(Grouped(n))) == Number(n as real)
  {
    var g := Grouped(n);
    var d := RemoveAll(g, ',');
    UngroupedValue(n);
    DigitsHaveNoPoint(d);
    ParseDigits(d);
    assert ':' !in d && '$' !in g by {
      assert forall k :: 0 <= k < |d| ==> IsDigit(d[k]);
    }
    BeforeAbsent(d, ':');
    RemoveAllAbsent(g, '$');
  }

  /** A currency amount such as "$1,250,000" reads back as its value in Salary and Median_Worker_Pay (lines 55-57). */
  lemma CurrencyAmount(col: string, n: nat)
    requires col in CurrencyColumns
    ensures CleanCell(col, Entry("$" + Grouped(n))) == Number(n as real)
  {
    var g := Grouped(n);
    var d := RemoveAll(g, ',');
    assert '$' !in g;
    RemoveAllConcat("$", g, '$');
    assert RemoveAll("$", '$') == [];
    RemoveAllAbsent(g, '$');
    CurrencyNotRatio(col);
    assert RemoveAll("$" + g, '$') == g;
    assert NumericText(col, Entry("$" + g)) == d;
    UngroupedValue(n);
    ParseDigits(d);
  }

  /** A ratio such as "1,447:1" reads back as the number before the colon (lines 52-54). */
  lemma RatioAmount(n: nat, rest: string)
    ensures CleanCell(PayRatio, Entry(Grouped(n) + [':'] + rest)) == Number(n as real)
  {
    var g := Grouped(n);
    var d := RemoveAll(g, ',');
    UngroupedValue(n);
    RemoveAllConcat(g + [':'], rest, ',');
    RemoveAllConcat(g, [':'], ',');
    assert RemoveAll([':'], ',') == [':'];
    assert ':' !in d by {
      assert forall k :: 0 <= k < |d| ==> IsDigit(d[k]);
    }
    BeforeConcat(d, RemoveAll(rest, ','), ':');
    ParseDigits(d);
  }

  /** The sheet's "$1,250,000" salary is 1250000. */
  lemma CurrencyExample()
    ensures CleanCell(Salary, Entry("$1,250,000")) == Number(1250000.0)
  {
    GroupedMillion();
    CurrencyAmount(Salary, 1250000);
  }

  /** 1250000 with its thousands separators. */
  lemma GroupedMillion()
    ensures Grouped(1250000) == "1,250,000"
  {
    assert Grouped(1) == "1";
    assert Pad3(250) == "250";
    assert Grouped(1250) == "1" + [','] + "250";
    assert Pad3(0) == "000";
    assert Grouped(1250000) == "1,250" + [','] + "000";
  }

  /** The sheet's "1,447:1" pay ratio is 1447. */
  lemma RatioExample()
    ensures CleanCell(PayRatio, Entry("1,447:1")) == Number(1447.0)
  {
    assert Pad3(447) == "447" && Digits(1) == "1";
    assert Grouped(1447) == "1,447";
    assert "1,447:1" == Grouped(1447) + [':'] + "1";
    RatioAmount(1447, "1");
  }

  /**
   * A dollar sign is removed only in the currency columns: in the other
   * numeric columns (the ratio aside, whose text after the colon is
   * ignored) a cell with one becomes missing.
   */
  lemma DollarOutsideCurrency(col: string, s: string)
    requires col in NumericColumns && col !in CurrencyColumns && col != PayRatio
    requires '$' in s
    ensures CleanCell(col, Entry(s)) == Nan
  {
    RemoveAllKeeps(s, ',', '$');
    var t := RemoveAll(s, ',');
    var k :| 0 <= k < |t| && t[k] == '$';
    assert ParseNumber(t).None?;
  }

  /** Cleaning never fails: a numeric column holds numbers or missing values, and a blank numeric cell is missing. */
  lemma NumericCells(col: string, c: RawCell)
    requires col in NumericColumns
    ensures CleanCell(col, c).Number? || CleanCell(col, c).Nan?
    ensures c == Blank ==> CleanCell(col, c) == Nan
  {
    if c == Blank {
      var t := NumericText(col, c);
      assert t == "nan" by {
        RemoveAllAbsent("nan", ',');
        RemoveAllAbsent("nan", '$');
        BeforeAbsent("nan", ':');
      }
      assert !IsDigit(t[0]);
    }
  }

  /** The pay-level column is stripped, then cast to the category. */
  lemma PayLevelCleaning(c: RawCell)
    ensures CleanCell(PayLevelColumn, c) == ToCategory(CleanString(c))
  {
    PayLevelIsString();
  }

  /**
   * A pay-level cell becomes a category exactly when its stripped text is
   * one of the five labels; any other text, and a blank, becomes missing
   * (lines 69-75).
   */
  lemma PayLevelCell(s: string, l: PayLevel)
    ensures CleanCell(PayLevelColumn, Entry(s)) == Level(l) <==> Strip(s) == Name(l)
    ensures CleanCell(PayLevelColumn, Entry(s)).Level? || CleanCell(PayLevelColumn, Entry(s)) == Nan
  {
    PayLevelCleaning(Entry(s));
    var t := Strip(s);
    ParseName(l);
    match Parse(t)
    case Some(m) =>
      NameInjective(l, m);
    case None =>
  }

  /** A blank pay level is missing. */
  lemma BlankPayLevel()
    ensures CleanCell(PayLevelColumn, Blank) == Nan
  {
    PayLevelCleaning(Blank);
    BlankString();
    forall l: PayLevel ensures Name(l) != "nan" {
      assert Name(l)[0] != "nan"[0];
    }
    ParseDomain("nan");
    assert Parse("nan").None?;
  }

  /** Surrounding whitespace does not stop a label from becoming its category. */
  lemma PaddedPayLevel(pre: string, l: PayLevel, post: string)
    requires AllSpace(pre) && AllSpace(post)
    ensures CleanCell(PayLevelColumn, Entry(pre + Name(l) + post)) == Level(l)
  {
    StripPadded(pre, Name(l), post);
    PayLevelCell(pre + Name(l) + post, l);
  }

  /**
   * The name, company and industry columns are strings after cleaning, a
   * blank one included: the text conversion turns it into "nan" before `dropna` runs,
   * so a missing CEO name never drops a row.
   */
  lemma NameNeverMissing(col: string, c: RawCell)
    requires col in StringColumns && col != PayLevelColumn
    ensures CleanCell(col, c).Text?
    ensures c == Blank ==> CleanCell(col, c) == Text("nan")
  {
    StringCleaned(col, c);
    if c == Blank {
      BlankString();
    }
  }

  /** A string column other than the pay level is only stripped. */
  lemma StringCleaned(col: string, c: RawCell)
    requires col in StringColumns && col != PayLevelColumn
    ensures CleanCell(col, c) == CleanString(c)
  {
    StringNotNumeric(col);
  }

  /** A blank string cell is the text "nan". */
  lemma BlankString()
    ensures CleanString(Blank) == Text("nan")
  {
    StripUntrimmed("nan");
  }

  /** The ticker is not among the cleaned columns: its text is kept unstripped, padding and all. */
  lemma TickerUnstripped(c: RawCell)
    ensures CleanCell(Ticker, c) == FromRaw(c)
  {
    assert Ticker !in ProcessedColumns;
  }

  /**
   * On a header without duplicate required columns, `dropna` keeps a row
   * exactly when its salary cleaned to a number.
   */
  lemma {:induction false} KeptIffSalary(h: seq<string>, row: seq<RawCell>)
    requires |row| == |h|
    requires IndexOf(h, Salary).Some? && Occurrences(h, Salary) <= 1
    ensures Complete(h, CleanRow(h, row)) <==> CleanCell(Salary, row[IndexOf(h, Salary).value]).Number?
  {
    var j := IndexOf(h, Salary).value;
    var r := CleanRow(h, row);
    var salary := CleanCell(Salary, row[j]);
    assert r[j] == salary;
    assert Salary in RequiredColumns;
    NumericCells(Salary, row[j]);
    if salary.Number? {
      forall c | 0 <= c < |r| && c < |h| && h[c] in RequiredColumns ensures !r[c].Nan? {
        if h[c] == Salary {
          OccursOnce(h, Salary, j, c);
        } else {
          assert h[c] == CeoName;
          NameNeverMissing(h[c], row[c]);
        }
      }
    }
  }
}

/**
 * The size-chart side of the product scraper: the row and cell logic of the size-chart
 * table over already extracted cell texts, and the choice of a fallback chart when the
 * page gives none. Header names with garbled Turkish letters are kept exactly as the
 * scraper spells them.
 */
module IngestSizeChart {
  import opened Wrappers
  import opened Text
  import Dicts

  // === Size-chart table ===

  /** A table row as the text of its cells, each already stripped of surrounding whitespace. */
  type Row = seq<string>

  /** The header names of a size chart and the measurement key each stands for. */
  const HeaderMapping: Dicts.Dict<string, string> := [
    ("beden", "size"),
    ("size", "size"),
    ("g√∂ƒü√ºs", "chest_width"),
    ("chest", "chest_width"),
    ("g√∂ƒü√ºs geni≈üliƒüi", "chest_width"),
    ("boy", "length"),
    ("length", "length"),
    ("uzunluk", "length"),
    ("omuz", "shoulder_width"),
    ("shoulder", "shoulder_width"),
    ("omuz geni≈üliƒüi", "shoulder_width"),
    ("kol", "sleeve_length"),
    ("sleeve", "sleeve_length"),
    ("bel", "waist"),
    ("waist", "waist")
  ]

  /** The key a (lower-cased) header reads as: its mapping entry, or the header itself. */
  function HeaderKey(mapping: Dicts.Dict<string, string>, header: string): string {
    match Dicts.Get(mapping, header)
    case Some(key) => key
    case None => header
  }

  /** The lower-cased texts of the header row. */
  function Headers(row: Row): (r: seq<string>)
    ensures |r| == |row| && forall i :: 0 <= i < |row| ==> r[i] == Lower(row[i])
  {
    seq(|row|, i requires 0 <= i < |row| => Lower(row[i]))
  }

  /** The characters `[^\d.]` does not remove. */
  predicate NumberChar(c: char) {
    IsDigit(c) || c == '.'
  }

  function Pow10(n: nat): (r: real)
    ensures r >= 1.0
  {
    if n == 0 then 1.0 else 10.0 * Pow10(n - 1)
  }

  /**
   * `float(s)` of a string of digits and dots: at most one dot and at least one digit,
   * otherwise the conversion fails.
   */
  function ParseNumber(s: string): (r: Option<real>)
    requires forall c :: c in s ==> NumberChar(c)
  {
    var whole := Before(s, '.');
    assert forall c :: c in whole ==> IsDigit(c) by {
      forall c | c in whole ensures IsDigit(c) {
        var i :| 0 <= i < |whole| && whole[i] == c;
        assert s[i] == c && s[i] in s && NumberChar(c);
        assert whole[i] in whole;
      }
    }
    if |whole| == |s| then
      if s == [] then None else Some(DigitsValue(s) as real)
    else
      var fraction := s[|whole| + 1..];
      if '.' in fraction || (whole == [] && fraction == []) then None
      else
        assert forall c :: c in fraction ==> IsDigit(c) by {
          forall c | c in fraction ensures IsDigit(c) {
            var i :| 0 <= i < |fraction| && fraction[i] == c;
            assert s[|whole| + 1 + i] == c && s[|whole| + 1 + i] in s && NumberChar(c);
            assert fraction[i] in fraction;
          }
        }
        Some(DigitsValue(whole) as real + DigitsValue(fraction) as real / Pow10(|fraction|))
  }

  /**
   * A numeric cell: of a range "a-b" only the text before the first dash, with every
   * character but digits and dots removed, converted to a number; `None` when the
   * conversion fails.
   */
  function CellValue(value: string): Option<real> {
    var v := if '-' in value then Before(value, '-') else value;
    ParseNumber(Filter(v, NumberChar))
  }

  /** What the cells of a row have given so far: the size code and the numeric values. */
  datatype RowState = RowState(sizeCode: Option<string>, values: Dicts.Dict<string, real>)

  /** One cell under its header: the size cell sets the upper-cased code, any other cell adds its number. */
  function AddCell(keyOf: string -> string, number: string -> Option<real>, st: RowState, header: string, value: string): RowState {
    var key := keyOf(header);
    if key == "size" then st.(sizeCode := Some(Upper(value)))
    else
      match number(value)
      case None => st
      case Some(v) => st.(values := Dicts.Set(st.values, key, v))
  }

  /** A cell under the size header sets the code; any other cell leaves it. */
  lemma AddCellSizeCode(keyOf: string -> string, number: string -> Option<real>, st: RowState, header: string, value: string)
    ensures AddCell(keyOf, number, st, header, value).sizeCode ==
      if keyOf(header) == "size" then Some(Upper(value)) else st.sizeCode
  {
  }

  /** A readable number under any other header is stored under its key; nothing else changes the values. */
  lemma AddCellValues(keyOf: string -> string, number: string -> Option<real>, st: RowState, header: string, value: string)
    ensures AddCell(keyOf, number, st, header, value).values ==
      if keyOf(header) != "size" && number(value).Some? then Dicts.Set(st.values, keyOf(header), number(value).value)
      else st.values
  {
  }

  /** The first `n` cells of a row, read left to right. */
  function ReadRow(keyOf: string -> string, number: string -> Option<real>, headers: seq<string>, cells: Row, n: nat): RowState
    requires n <= |headers| && n <= |cells|
  {
    if n == 0 then RowState(None, [])
    else AddCell(keyOf, number, ReadRow(keyOf, number, headers, cells, n - 1), headers[n - 1], cells[n - 1])
  }

  /** The cells the parser reads: those with a header, the rest being ignored. */
  function ReadCells(keyOf: string -> string, number: string -> Option<real>, headers: seq<string>, cells: Row): RowState {
    ReadRow(keyOf, number, headers, cells, if |cells| <= |headers| then |cells| else |headers|)
  }

  /**
   * The entry a row contributes: none for a row of fewer than two cells, and none unless
   * it gave a non-empty size code and at least one number.
   */
  function RowEntry(keyOf: string -> string, number: string -> Option<real>, headers: seq<string>, cells: Row): Option<(string, Dicts.Dict<string, real>)> {
    if |cells| < 2 then None
    else
      var st := ReadCells(keyOf, number, headers, cells);
      if st.sizeCode.Some? && st.sizeCode.value != [] && st.values != [] then Some((st.sizeCode.value, st.values))
      else None
  }

  /** The chart the body rows build; a later row with the same size code replaces the earlier one. */
  function ChartRows(keyOf: string -> string, number: string -> Option<real>, headers: seq<string>, rows: seq<Row>): Dicts.Dict<string, Dicts.Dict<string, real>> {
    if rows == [] then []
    else
      AddRow(ChartRows(keyOf, number, headers, rows[..|rows| - 1]), RowEntry(keyOf, number, headers, rows[|rows| - 1]))
  }

  /** `measurements[size_code] = size_measurements` for a row that gives an entry. */
  function AddRow(chart: Dicts.Dict<string, Dicts.Dict<string, real>>, entry: Option<(string, Dicts.Dict<string, real>)>): Dicts.Dict<string, Dicts.Dict<string, real>> {
    match entry
    case None => chart
    case Some(e) => Dicts.Set(chart, e.0, e.1)
  }

  /**
   * `parse_size_chart_table` over the rows of the first table: `None` when there is no
   * table; the first row gives the headers and the others are body rows.
   */
  function SizeChart(table: Option<seq<Row>>): Dicts.Dict<string, Dicts.Dict<string, real>> {
    match table
    case None => []
    case Some(rows) => if rows == [] then [] else ChartRows(h => HeaderKey(HeaderMapping, h), CellValue, Headers(rows[0]), rows[1..])
  }

  /** The cell loop of the parser: reads cells until the headers run out. */
  method ReadRowCells(keyOf: string -> string, number: string -> Option<real>, headers: seq<string>, cells: Row) returns (sizeCode: Option<string>, values: Dicts.Dict<string, real>)
    ensures RowState(sizeCode, values) == ReadCells(keyOf, number, headers, cells)
  {
    sizeCode := None;
    values := [];
    var i := 0;
    while i < |cells|
      invariant 0 <= i <= |cells| && i <= |headers|
      invariant RowState(sizeCode, values) == ReadRow(keyOf, number, headers, cells, i)
    {
      if i >= |headers| {
        break;
      }
      var header := headers[i];
      var value := cells[i];
      ghost var before := RowState(sizeCode, values);
      assert ReadRow(keyOf, number, headers, cells, i + 1) == AddCell(keyOf, number, before, header, value);
      AddCellSizeCode(keyOf, number, before, header, value);
      AddCellValues(keyOf, number, before, header, value);
      var key := keyOf(header);
      if key == "size" {
        sizeCode := Some(Upper(value));
      } else {
        var v := number(value);
        if v.Some? {
          values := Dicts.Set(values, key, v.value);
        }
      }
      i := i + 1;
    }
  }

  /** The row loop of the parser: skips short rows and stores each row that gives an entry. */
  method ReadBodyRows(keyOf: string -> string, number: string -> Option<real>, headers: seq<string>, rows: seq<Row>)
    returns (measurements: Dicts.Dict<string, Dicts.Dict<string, real>>)
    ensures measurements == ChartRows(keyOf, number, headers, rows)
  {
    measurements := [];
    for r := 0 to |rows|
      invariant measurements == ChartRows(keyOf, number, headers, rows[..r])
    {
      assert rows[..r + 1][..r] == rows[..r];
      var cells := rows[r];
      assert ChartRows(keyOf, number, headers, rows[..r + 1]) == AddRow(measurements, RowEntry(keyOf, number, headers, cells));
      if |cells| < 2 {
        continue;
      }
      var sizeCode, sizeMeasurements := ReadRowCells(keyOf, number, headers, cells);
      if sizeCode.Some? && sizeCode.value != [] && sizeMeasurements != [] {
        measurements := Dicts.Set(measurements, sizeCode.value, sizeMeasurements);
      }
    }
    assert rows[..|rows|] == rows;
  }

  method ParseSizeChartTable(table: Option<seq<Row>>) returns (measurements: Dicts.Dict<string, Dicts.Dict<string, real>>)
    ensures measurements == SizeChart(table)
  {
    if table.None? {
      return [];
    }
    var all := table.value;
    if all == [] {
      return [];
    }
    var headerRow := all[0];
    var headers: seq<string> := [];
    for j := 0 to |headerRow|
      invariant |headers| == j && forall k :: 0 <= k < j ==> headers[k] == Lower(headerRow[k])
    {
      headers := headers + [Lower(headerRow[j])];
    }
    assert headers == Headers(headerRow);
    measurements := ReadBodyRows(h => HeaderKey(HeaderMapping, h), CellValue, headers, all[1..]);
  }

  // --- Size-chart properties ---

  /** Reading `n` cells looks at nothing past them. */
  lemma {:induction false} ReadRowIgnoresLaterCells(keyOf: string -> string, number: string -> Option<real>, headers: seq<string>, cells: Row, m: nat, n: nat)
    requires n <= m <= |cells| && n <= |headers|
    ensures ReadRow(keyOf, number, headers, cells[..m], n) == ReadRow(keyOf, number, headers, cells, n)
  {
    if n == 0 {
      assert ReadRow(keyOf, number, headers, cells, n) == RowState(None, []);
      assert ReadRow(keyOf, number, headers, cells[..m], n) == RowState(None, []);
    } else {
      ReadRowIgnoresLaterCells(keyOf, number, headers, cells, m, n - 1);
      assert cells[..m][n - 1] == cells[n - 1];
      assert ReadRow(keyOf, number, headers, cells[..m], n) ==
        AddCell(keyOf, number, ReadRow(keyOf, number, headers, cells[..m], n - 1), headers[n - 1], cells[..m][n - 1]);
      assert ReadRow(keyOf, number, headers, cells, n) ==
        AddCell(keyOf, number, ReadRow(keyOf, number, headers, cells, n - 1), headers[n - 1], cells[n - 1]);
    }
  }

  /** Cells beyond the header count are ignored: the row reads as its first `|headers|` cells. */
  lemma ExtraCellsIgnored(keyOf: string -> string, number: string -> Option<real>, headers: seq<string>, cells: Row)
    requires 2 <= |headers| < |cells|
    ensures RowEntry(keyOf, number, headers, cells) == RowEntry(keyOf, number, headers, cells[..|headers|])
  {
    ReadRowIgnoresLaterCells(keyOf, number, headers, cells, |headers|, |headers|);
  }

  /** A row of fewer than two cells, wherever it stands, leaves the chart as it is without it. */
  lemma {:induction false} ShortRowSkipped(keyOf: string -> string, number: string -> Option<real>, headers: seq<string>, before: seq<Row>, short: Row, after: seq<Row>)
    requires |short| < 2
    ensures ChartRows(keyOf, number, headers, before + [short] + after) == ChartRows(keyOf, number, headers, before + after)
    decreases |after|
  {
    if after == [] {
      ChartRowsStep(keyOf, number, headers, before, short);
      assert before + [short] + after == before + [short];
      assert before + after == before;
    } else {
      var a, last := after[..|after| - 1], after[|after| - 1];
      ShortRowSkipped(keyOf, number, headers, before, short, a);
      ChartRowsStep(keyOf, number, headers, before + [short] + a, last);
      ChartRowsStep(keyOf, number, headers, before + a, last);
      assert before + [short] + after == (before + [short] + a) + [last];
      assert before + after == (before + a) + [last];
    }
  }

  /** A row added at the end updates the chart the earlier rows built. */
  lemma ChartRowsStep(keyOf: string -> string, number: string -> Option<real>, headers: seq<string>, rows: seq<Row>, last: Row)
    ensures ChartRows(keyOf, number, headers, rows + [last]) ==
      AddRow(ChartRows(keyOf, number, headers, rows), RowEntry(keyOf, number, headers, last))
  {
    var x := rows + [last];
    assert x[..|x| - 1] == rows && x[|x| - 1] == last;
  }

  /** The index of the last of the first `n` headers that maps to the size column, by a backward scan. */
  function LastSizeHeader(keyOf: string -> string, headers: seq<string>, n: nat): (r: Option<nat>)
    requires n <= |headers|
    ensures r.Some? ==> r.value < n
  {
    if n == 0 then None
    else if keyOf(headers[n - 1]) == "size" then Some(n - 1)
    else LastSizeHeader(keyOf, headers, n - 1)
  }

  /** The backward scan finds a size header exactly when there is one, and then the last one. */
  lemma {:induction false} LastSizeHeaderIsLast(keyOf: string -> string, headers: seq<string>, n: nat)
    requires n <= |headers|
    ensures LastSizeHeader(keyOf, headers, n).None? <==> forall i :: 0 <= i < n ==> keyOf(headers[i]) != "size"
    ensures LastSizeHeader(keyOf, headers, n).Some? ==>
      keyOf(headers[LastSizeHeader(keyOf, headers, n).value]) == "size" &&
      forall j :: LastSizeHeader(keyOf, headers, n).value < j < n ==> keyOf(headers[j]) != "size"
  {
    if n > 0 {
      LastSizeHeaderIsLast(keyOf, headers, n - 1);
    }
  }

  /**
   * The size code is there exactly when some read cell stands under a size header, and
   * then it is the upper-cased text of the last such cell.
   */
  lemma {:induction false} SizeCodeIsLastSizeCell(keyOf: string -> string, number: string -> Option<real>, headers: seq<string>, cells: Row, n: nat)
    requires n <= |headers| && n <= |cells|
    ensures LastSizeHeader(keyOf, headers, n).None? ==> ReadRow(keyOf, number, headers, cells, n).sizeCode == None
    ensures LastSizeHeader(keyOf, headers, n).Some? ==>
      ReadRow(keyOf, number, headers, cells, n).sizeCode == Some(Upper(cells[LastSizeHeader(keyOf, headers, n).value]))
  {
    if n == 0 {
      assert ReadRow(keyOf, number, headers, cells, n) == RowState(None, []);
    } else {
      SizeCodeIsLastSizeCell(keyOf, number, headers, cells, n - 1);
      SizeCodeStep(keyOf, number, headers, cells, n);
    }
  }

  /** Reading one more cell sets the size code under a size header and keeps it otherwise. */
  lemma SizeCodeStep(keyOf: string -> string, number: string -> Option<real>, headers: seq<string>, cells: Row, n: nat)
    requires 0 < n <= |headers| && n <= |cells|
    ensures ReadRow(keyOf, number, headers, cells, n).sizeCode ==
      if keyOf(headers[n - 1]) == "size" then Some(Upper(cells[n - 1])) else ReadRow(keyOf, number, headers, cells, n - 1).sizeCode
  {
    AddCellSizeCode(keyOf, number, ReadRow(keyOf, number, headers, cells, n - 1), headers[n - 1], cells[n - 1]);
  }

  /** The value a row gives `key` by a backward scan: the last readable cell under that key. */
  function LastCellValue(keyOf: string -> string, number: string -> Option<real>, headers: seq<string>, cells: Row, n: nat, key: string): Option<real>
    requires n <= |headers| && n <= |cells|
  {
    if n == 0 then None
    else if key != "size" && keyOf(headers[n - 1]) == key && number(cells[n - 1]).Some? then
      number(cells[n - 1])
    else LastCellValue(keyOf, number, headers, cells, n - 1, key)
  }

  /**
   * Each key of a row holds the number of the last readable cell under it; a cell whose
   * number cannot be read is dropped, and the size column gives no number.
   */
  lemma {:induction false} RowValuesAreLastCells(keyOf: string -> string, number: string -> Option<real>, headers: seq<string>, cells: Row, n: nat, key: string)
    requires n <= |headers| && n <= |cells|
    ensures Dicts.Get(ReadRow(keyOf, number, headers, cells, n).values, key) == LastCellValue(keyOf, number, headers, cells, n, key)
  {
    if n == 0 {
      assert ReadRow(keyOf, number, headers, cells, n).values == [];
    } else {
      RowValuesAreLastCells(keyOf, number, headers, cells, n - 1, key);
      var st := ReadRow(keyOf, number, headers, cells, n - 1);
      var k := keyOf(headers[n - 1]);
      var v := number(cells[n - 1]);
      var values := ReadRow(keyOf, number, headers, cells, n).values;
      AddCellValues(keyOf, number, st, headers[n - 1], cells[n - 1]);
      if k != "size" && v.Some? {
        assert values == Dicts.Set(st.values, k, v.value);
        if k == key {
          Dicts.GetSetSame(st.values, k, v.value);
          assert LastCellValue(keyOf, number, headers, cells, n, key) == v;
        } else {
          Dicts.GetSetOther(st.values, k, v.value, key);
          assert LastCellValue(keyOf, number, headers, cells, n, key) == LastCellValue(keyOf, number, headers, cells, n - 1, key);
        }
      } else {
        assert values == st.values;
        assert LastCellValue(keyOf, number, headers, cells, n, key) == LastCellValue(keyOf, number, headers, cells, n - 1, key);
      }
    }
  }

  /** The size column never becomes a measurement. */
  lemma {:induction false} NoSizeValue(keyOf: string -> string, number: string -> Option<real>, headers: seq<string>, cells: Row, n: nat)
    requires n <= |headers| && n <= |cells|
    ensures LastCellValue(keyOf, number, headers, cells, n, "size") == None
  {
    if n > 0 {
      NoSizeValue(keyOf, number, headers, cells, n - 1);
    }
  }

  /** A row names each measurement once. */
  lemma {:induction false} RowValuesDistinct(keyOf: string -> string, number: string -> Option<real>, headers: seq<string>, cells: Row, n: nat)
    requires n <= |headers| && n <= |cells|
    ensures Dicts.DistinctKeys(ReadRow(keyOf, number, headers, cells, n).values)
  {
    if n > 0 {
      RowValuesDistinct(keyOf, number, headers, cells, n - 1);
      var st := ReadRow(keyOf, number, headers, cells, n - 1);
      var v := number(cells[n - 1]);
      if keyOf(headers[n - 1]) != "size" && v.Some? {
        Dicts.SetDistinct(st.values, keyOf(headers[n - 1]), v.value);
      }
    }
  }

  /** A header the mapping does not list is its own key. */
  lemma UnknownHeaderVerbatim(mapping: Dicts.Dict<string, string>, header: string)
    requires !Dicts.HasKey(mapping, header)
    ensures HeaderKey(mapping, header) == header
  {
    Dicts.GetSomeIffHasKey(mapping, header);
  }

  /** The entry of the last row that gave `code`, by a backward scan. */
  function LastRowEntry(keyOf: string -> string, number: string -> Option<real>, headers: seq<string>, rows: seq<Row>, code: string): Option<Dicts.Dict<string, real>> {
    if rows == [] then None
    else
      var e := RowEntry(keyOf, number, headers, rows[|rows| - 1]);
      if e.Some? && e.value.0 == code then Some(e.value.1)
      else LastRowEntry(keyOf, number, headers, rows[..|rows| - 1], code)
  }

  /** A size code reads back as the measurements of the last row that gave it. */
  lemma {:induction false} ChartIsLastRowPerSize(keyOf: string -> string, number: string -> Option<real>, headers: seq<string>, rows: seq<Row>, code: string)
    ensures Dicts.Get(ChartRows(keyOf, number, headers, rows), code) == LastRowEntry(keyOf, number, headers, rows, code)
  {
    if rows != [] {
      var p := rows[..|rows| - 1];
      ChartIsLastRowPerSize(keyOf, number, headers, p, code);
      var e := RowEntry(keyOf, number, headers, rows[|rows| - 1]);
      if e.Some? {
        if e.value.0 == code {
          Dicts.GetSetSame(ChartRows(keyOf, number, headers, p), e.value.0, e.value.1);
        } else {
          Dicts.GetSetOther(ChartRows(keyOf, number, headers, p), e.value.0, e.value.1, code);
        }
      }
    }
  }

  /** Every stored size has a non-empty code and at least one measurement, and codes are distinct. */
  lemma {:induction false} ChartEntriesComplete(keyOf: string -> string, number: string -> Option<real>, headers: seq<string>, rows: seq<Row>)
    ensures Dicts.DistinctKeys(ChartRows(keyOf, number, headers, rows))
    ensures forall e :: e in ChartRows(keyOf, number, headers, rows) ==> e.0 != [] && e.1 != []
  {
    if rows != [] {
      var p := rows[..|rows| - 1];
      ChartEntriesComplete(keyOf, number, headers, p);
      var e := RowEntry(keyOf, number, headers, rows[|rows| - 1]);
      if e.Some? {
        Dicts.SetDistinct(ChartRows(keyOf, number, headers, p), e.value.0, e.value.1);
        Dicts.SetEntries(ChartRows(keyOf, number, headers, p), e.value.0, e.value.1);
      }
    }
  }

  /** A range keeps the number before its first dash. */
  lemma CellValueOfRange(a: string, b: string)
    requires '-' !in a
    ensures CellValue(a + "-" + b) == CellValue(a)
  {
    var s := a + "-" + b;
    assert s == a + ['-'] + b;
    assert s[|a|] == '-';
    BeforeOf(a, '-', b);
  }

  /** A plain run of digits reads as its integer value. */
  lemma CellValueOfDigits(d: string)
    requires d != [] && forall c :: c in d ==> IsDigit(c)
    ensures CellValue(d) == Some(DigitsValue(d) as real)
  {
    FilterAll(d, NumberChar);
    BeforeAbsent(d, '.');
  }

  /** Converted numbers are never negative: a leading minus sign starts an empty range. */
  lemma ParseNumberNonNegative(s: string)
    requires forall c :: c in s ==> NumberChar(c)
    ensures ParseNumber(s).Some? ==> ParseNumber(s).value >= 0.0
  {
    var whole := Before(s, '.');
    if |whole| < |s| && ParseNumber(s).Some? {
      var fraction := s[|whole| + 1..];
      assert forall c :: c in fraction ==> IsDigit(c) by {
        forall c | c in fraction ensures IsDigit(c) {
          var i :| 0 <= i < |fraction| && fraction[i] == c;
          assert s[|whole| + 1 + i] == c && s[|whole| + 1 + i] in s && NumberChar(c);
          assert fraction[i] in fraction;
        }
      }
      var q := DigitsValue(fraction) as real / Pow10(|fraction|);
      assert q >= 0.0;
    }
  }

  // === Fallback chart ===

  /** A size chart: size code to its measurements in cm. */
  type Chart = Dicts.Dict<string, Dicts.Dict<string, real>>

  const BeymenClubChart: Chart := [
    ("S", [("chest_width", 102.0), ("length", 72.0), ("shoulder_width", 44.0)]),
    ("M", [("chest_width", 108.0), ("length", 74.0), ("shoulder_width", 46.0)]),
    ("L", [("chest_width", 114.0), ("length", 76.0), ("shoulder_width", 48.0)]),
    ("XL", [("chest_width", 120.0), ("length", 78.0), ("shoulder_width", 50.0)]),
    ("XXL", [("chest_width", 126.0), ("length", 80.0), ("shoulder_width", 52.0)])
  ]

  const NetworkChart: Chart := [
    ("S", [("chest_width", 100.0), ("length", 71.0), ("shoulder_width", 43.0)]),
    ("M", [("chest_width", 106.0), ("length", 73.0), ("shoulder_width", 45.0)]),
    ("L", [("chest_width", 112.0), ("length", 75.0), ("shoulder_width", 47.0)]),
    ("XL", [("chest_width", 118.0), ("length", 77.0), ("shoulder_width", 49.0)])
  ]

  const DefaultChart: Chart := [
    ("S", [("chest_width", 104.0), ("length", 72.0), ("shoulder_width", 44.0)]),
    ("M", [("chest_width", 110.0), ("length", 74.0), ("shoulder_width", 46.0)]),
    ("L", [("chest_width", 116.0), ("length", 76.0), ("shoulder_width", 48.0)]),
    ("XL", [("chest_width", 122.0), ("length", 78.0), ("shoulder_width", 50.0)])
  ]

  /** The charts used when the page gives none, by brand key, in the order they are tried. */
  const FallbackSizeCharts: Dicts.Dict<string, Chart> :=
    [("beymen club", BeymenClubChart), ("network", NetworkChart), ("default", DefaultChart)]

  /** The text the brand keys are looked for in: the lower-cased brand, or "default" without one. */
  function BrandText(brand: Option<string>): string {
    if brand.None? || brand.value == [] then "default" else Lower(brand.value)
  }

  /** The position of the first table key that occurs in `text`, if any. */
  function FirstContainedKey<V>(table: Dicts.Dict<string, V>, text: string): (r: Option<nat>)
    ensures r.Some? ==> r.value < |table| && Contains(text, table[r.value].0)
    ensures r.Some? ==> forall j :: 0 <= j < r.value ==> !Contains(text, table[j].0)
    ensures r.None? <==> forall j :: 0 <= j < |table| ==> !Contains(text, table[j].0)
  {
    if table == [] then None
    else if Contains(text, table[0].0) then Some(0)
    else
      match FirstContainedKey(table[1..], text)
      case None => None
      case Some(i) => Some(i + 1)
  }

  /** The for-else choice: the chart of the first contained key, else the default chart. */
  function FallbackChoice(charts: Dicts.Dict<string, Chart>, text: string, default: Chart): Chart {
    match FirstContainedKey(charts, text)
    case Some(i) => charts[i].1
    case None => default
  }

  /** The page's own chart when it gave one, else the fallback for the brand. */
  function ProductChart(parsed: Chart, brand: Option<string>): Chart {
    if parsed != [] then parsed else FallbackChoice(FallbackSizeCharts, BrandText(brand), DefaultChart)
  }

  /** The loop over the fallback keys, with its `else` branch. */
  method ChooseFallback(charts: Dicts.Dict<string, Chart>, text: string, default: Chart) returns (measurements: Chart)
    ensures measurements == FallbackChoice(charts, text, default)
  {
    var i := 0;
    while i < |charts|
      invariant 0 <= i <= |charts|
      invariant forall j :: 0 <= j < i ==> !Contains(text, charts[j].0)
    {
      var (key, chart) := charts[i];
      if Contains(text, key) {
        assert FirstContainedKey(charts, text) == Some(i);
        return chart;
      }
      i := i + 1;
    }
    return default;
  }

  /** `if not measurements`: keeps a parsed chart, otherwise picks the brand's fallback. */
  method SelectMeasurements(parsed: Chart, brand: Option<string>) returns (measurements: Chart)
    ensures measurements == ProductChart(parsed, brand)
  {
    measurements := parsed;
    if measurements == [] {
      var brandLower := if brand.Some? && brand.value != [] then Lower(brand.value) else "default";
      measurements := ChooseFallback(FallbackSizeCharts, brandLower, DefaultChart);
    }
  }

  /** Which fallback chart a brand text selects, from which of the three keys it contains. */
  lemma FallbackByKeys(text: string)
    ensures Contains(text, "beymen club") ==> FallbackChoice(FallbackSizeCharts, text, DefaultChart) == BeymenClubChart
    ensures !Contains(text, "beymen club") && Contains(text, "network") ==>
      FallbackChoice(FallbackSizeCharts, text, DefaultChart) == NetworkChart
    ensures !Contains(text, "beymen club") && !Contains(text, "network") ==>
      FallbackChoice(FallbackSizeCharts, text, DefaultChart) == DefaultChart
  {
    var r := FirstContainedKey(FallbackSizeCharts, text);
    assert FallbackSizeCharts[0].0 == "beymen club" && FallbackSizeCharts[1].0 == "network";
    if Contains(text, "beymen club") {
      assert r == Some(0);
    } else if Contains(text, "network") {
      assert r == Some(1);
    } else if r.Some? {
      assert r.value == 2;
    }
  }

  /** A product without a brand gets the default chart. */
  lemma NoBrandGetsDefault(brand: Option<string>)
    requires brand.None? || brand.value == []
    ensures ProductChart([], brand) == DefaultChart
  {
    AbsentChar("default", "beymen club", 'b');
    AbsentChar("default", "network", 'n');
    FallbackByKeys("default");
  }

  /** The chart a product ends with always lists at least one size. */
  lemma ProductChartNotEmpty(parsed: Chart, brand: Option<string>)
    ensures ProductChart(parsed, brand) != []
  {
    FallbackByKeys(BrandText(brand));
  }
}


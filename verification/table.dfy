/** The body and footer of the pivot table (src/components/PivotTable.jsx,
    lines 98-108 and 156-199): the cells shown for each row, the per-value
    row totals on the right, the column totals and the grand totals in the
    footer, and how they fit the header rows. */
module Table {
  import opened Wrappers
  import opened Strings
  import opened Ordering
  import opened Records
  import opened Keys
  import opened Aggregation
  import opened PivotData
  import opened ColumnTree
  import opened Headers

  /** `cell[val] != 0 ? cell[val] : null`: a zero or missing value shows an
      empty cell. */
  function Shown(cell: Cell, v: string): (r: Option<real>)
    ensures r.Some? <==> v in cell && cell[v] != 0.0
    ensures r.Some? ==> r.value == cell[v]
  {
    if v in cell && cell[v] != 0.0 then Some(cell[v]) else None
  }

  /** The body cells of one pivot row: for each cell, one per value field. */
  function BodyCells(row: seq<Cell>, values: seq<string>): (r: seq<Option<real>>)
    ensures |r| == |row| * |values|
    decreases |row|
  {
    if row == [] then []
    else
      var prev := BodyCells(row[..|row| - 1], values);
      assert |row| * |values| == (|row| - 1) * |values| + |values|;
      prev + seq(|values|, k requires 0 <= k < |values| => Shown(row[|row| - 1], values[k]))
  }

  /** The body cell for pivot column `c` and value field `k` is the
      `c * |values| + k`-th of its row. */
  lemma {:induction false} BodyCellAt(row: seq<Cell>, values: seq<string>, c: nat, k: nat)
    requires c < |row| && k < |values|
    ensures c * |values| + k < |BodyCells(row, values)|
    ensures BodyCells(row, values)[c * |values| + k] == Shown(row[c], values[k])
    decreases |row|
  {
    var n := |row| - 1;
    var prev := BodyCells(row[..n], values);
    assert |prev| == n * |values|;
    if c < n {
      BodyCellAt(row[..n], values, c, k);
      SlotBelow(c, n, |values|, k);
    } else {
      assert c * |values| + k == |prev| + k;
    }
  }

  /** Slot `k` of block `c` comes before block `n` when `c < n`. */
  lemma SlotBelow(c: nat, n: nat, w: nat, k: nat)
    requires c < n && k < w
    ensures c * w + k < n * w
  {
    assert (c + 1) * w <= n * w;
  }

  /** The row total shown for value field `v`:
      `pivotMatrix[rowIdx].reduce((acc, cell) => acc + Number(cell[val] || 0), 0)`. */
  function RowValueTotal(row: seq<Cell>, v: string): real
  {
    if row == [] then 0.0 else RowValueTotal(row[..|row| - 1], v) + CellValue(row[|row| - 1], v)
  }

  /** The shown row totals of a row, added up over the value fields. */
  function ValueTotalsSum(row: seq<Cell>, values: seq<string>): real
  {
    if values == [] then 0.0 else ValueTotalsSum(row, values[..|values| - 1]) + RowValueTotal(row, values[|values| - 1])
  }

  /** Appending a cell adds its sum over the value fields. */
  lemma {:induction false} ValueTotalsSnoc(row: seq<Cell>, values: seq<string>)
    requires row != []
    ensures ValueTotalsSum(row, values) == ValueTotalsSum(row[..|row| - 1], values) + CellSum(row[|row| - 1], values)
    decreases |values|
  {
    if values != [] {
      ValueTotalsSnoc(row, values[..|values| - 1]);
    }
  }

  /** The shown per-value row totals add up to the unrounded row total of
      `generatePivotData`: summing a row cell by cell or value by value
      gives the same. */
  lemma {:induction false} RowTotalsAgree(row: seq<Cell>, values: seq<string>)
    ensures ValueTotalsSum(row, values) == RowSum(row, values)
    decreases |row|
  {
    if row == [] {
      EmptyValueTotals(values);
    } else {
      RowTotalsAgree(row[..|row| - 1], values);
      ValueTotalsSnoc(row, values);
    }
  }

  lemma {:induction false} EmptyValueTotals(values: seq<string>)
    ensures ValueTotalsSum([], values) == 0.0
    decreases |values|
  {
    if values != [] {
      EmptyValueTotals(values[..|values| - 1]);
    }
  }

  /** `Number(total[val] || 0)`: a missing total counts as 0, while the
      `"NaN"` text of an avg total is a non-empty string, so it is not
      replaced by 0 and stays `NaN` (`None`). */
  function TotalNumber(total: map<string, Option<real>>, v: string): (r: Option<real>)
    ensures v !in total ==> r == Some(0.0)
    ensures v in total ==> r == total[v]
  {
    if v in total then total[v] else Some(0.0)
  }

  /** JavaScript `+` on numbers that may be `NaN`. */
  function AddNumbers(a: Option<real>, b: Option<real>): Option<real>
  {
    if a.Some? && b.Some? then Some(a.value + b.value) else None
  }

  /** `columnTotals.reduce((acc, total) => acc + Number(total[val] || 0), 0)`:
      `NaN` exactly when one of the column totals is. */
  function TotalsSum(totals: seq<map<string, Option<real>>>, v: string): (r: Option<real>)
    ensures r.None? <==> exists c :: 0 <= c < |totals| && TotalNumber(totals[c], v).None?
  {
    if totals == [] then Some(0.0)
    else AddNumbers(TotalsSum(totals[..|totals| - 1], v), TotalNumber(totals[|totals| - 1], v))
  }

  /** The grand total of value field `v` (src/components/PivotTable.jsx,
      line 194), as the number its `toFixed(2)` text shows; `None` is the
      text "NaN", shown exactly when some column's total for `v` is `NaN`. */
  function GrandTotal(totals: seq<map<string, Option<real>>>, v: string): (r: Option<real>)
    ensures r.None? <==> exists c :: 0 <= c < |totals| && TotalNumber(totals[c], v).None?
    ensures r.Some? ==> -0.005 <= r.value - TotalsSum(totals, v).value <= 0.005
    ensures r.Some? && IsInteger(TotalsSum(totals, v).value) ==> r.value == TotalsSum(totals, v).value
  {
    match TotalsSum(totals, v)
    case None => None
    case Some(total) =>
      if IsInteger(total) then Round2Integer(total); Some(Round2(total)) else Some(Round2(total))
  }

  /** An avg value field with a column of cells that are all zero has the
      total `NaN` in that column, and then its grand total shows "NaN". */
  lemma AvgZeroColumnGrandTotal(matrix: seq<seq<Cell>>, width: nat, values: seq<string>,
                                aggregations: map<string, string>, v: string, c: nat)
    requires Dense(matrix, width) && c < width && v in values && AggregationOf(aggregations, v) == "avg"
    requires matrix != [] && forall i :: 0 <= i < |matrix| ==> CellValue(matrix[i][c], v) == 0.0
    ensures GrandTotal(AllColumnTotals(matrix, width, values, aggregations), v).None?
  {
    var totals := AllColumnTotals(matrix, width, values, aggregations);
    var col := ColumnOf(matrix, c, v);
    NonZeroOfZeros(col);
    assert TotalNumber(totals[c], v).None?;
  }

  /** A sum of whole numbers is whole. */
  lemma {:induction false} SumRIntegers(xs: seq<real>)
    requires forall i :: 0 <= i < |xs| ==> IsInteger(xs[i])
    ensures IsInteger(SumR(xs))
    decreases |xs|
  {
    if xs != [] {
      SumRIntegers(xs[..|xs| - 1]);
      IntegersAdd(SumR(xs[..|xs| - 1]), xs[|xs| - 1]);
    }
  }

  lemma IntegersAdd(a: real, b: real)
    requires IsInteger(a) && IsInteger(b)
    ensures IsInteger(a + b)
  {
    assert a + b == (a.Floor + b.Floor) as real;
  }

  /** The sum of the first `w` columns of the matrix, column by column. */
  function ColumnsSum(matrix: seq<seq<Cell>>, w: nat, v: string): real
    requires forall i :: 0 <= i < |matrix| ==> w <= |matrix[i]|
  {
    if w == 0 then 0.0 else ColumnsSum(matrix, w - 1, v) + SumR(ColumnOf(matrix, w - 1, v))
  }

  /** The sum of the matrix for `v`, row by row. */
  function MatrixSum(matrix: seq<seq<Cell>>, v: string): real
  {
    if matrix == [] then 0.0 else MatrixSum(matrix[..|matrix| - 1], v) + RowValueTotal(matrix[|matrix| - 1], v)
  }

  lemma SumRSnoc(xs: seq<real>, x: real)
    ensures SumR(xs + [x]) == SumR(xs) + x
  {
    assert (xs + [x])[..|xs|] == xs;
  }

  /** Adding a row to the matrix adds, to the sum of its first `w` columns,
      the row total of the row's first `w` cells. */
  lemma {:induction false} ColumnsSumSnoc(matrix: seq<seq<Cell>>, row: seq<Cell>, w: nat, v: string)
    requires forall i :: 0 <= i < |matrix| ==> w <= |matrix[i]|
    requires w <= |row|
    ensures forall i :: 0 <= i < |matrix + [row]| ==> w <= |(matrix + [row])[i]|
    ensures ColumnsSum(matrix + [row], w, v) == ColumnsSum(matrix, w, v) + RowValueTotal(row[..w], v)
    decreases w
  {
    var m := matrix + [row];
    assert forall i :: 0 <= i < |matrix| ==> m[i] == matrix[i];
    if w > 0 {
      ColumnsSumSnoc(matrix, row, w - 1, v);
      assert ColumnOf(m, w - 1, v) == ColumnOf(matrix, w - 1, v) + [CellValue(row[w - 1], v)];
      SumRSnoc(ColumnOf(matrix, w - 1, v), CellValue(row[w - 1], v));
      assert row[..w][..w - 1] == row[..w - 1];
    }
  }

  /** Summing a dense matrix column by column or row by row gives the same. */
  lemma {:induction false} MatrixInterchange(matrix: seq<seq<Cell>>, width: nat, v: string)
    requires Dense(matrix, width)
    ensures ColumnsSum(matrix, width, v) == MatrixSum(matrix, v)
    decreases |matrix|
  {
    if matrix == [] {
      ColumnsSumEmpty(width, v);
    } else {
      var n := |matrix| - 1;
      var init := matrix[..n];
      assert Dense(init, width);
      MatrixInterchange(init, width, v);
      ColumnsSumSnoc(init, matrix[n], width, v);
      assert init + [matrix[n]] == matrix;
      assert matrix[n][..width] == matrix[n];
    }
  }

  lemma {:induction false} ColumnsSumEmpty(w: nat, v: string)
    ensures ColumnsSum([], w, v) == 0.0
    decreases w
  {
    if w > 0 {
      ColumnsSumEmpty(w - 1, v);
    }
  }

  /** With the sum aggregation and whole cell values, the footer adds up
      the exact column sums. */
  lemma SumTotalsAreColumnSums(matrix: seq<seq<Cell>>, width: nat, values: seq<string>,
                               aggregations: map<string, string>, v: string, w: nat)
    requires Dense(matrix, width) && w <= width && v in values && AggregationOf(aggregations, v) == "sum"
    requires forall i, c :: 0 <= i < |matrix| && 0 <= c < width ==> IsInteger(CellValue(matrix[i][c], v))
    ensures TotalsSum(AllColumnTotals(matrix, width, values, aggregations)[..w], v) == Some(ColumnsSum(matrix, w, v))
  {
    var totals := AllColumnTotals(matrix, width, values, aggregations);
    forall c | 0 <= c < w ensures TotalNumber(totals[c], v) == Some(SumR(ColumnOf(matrix, c, v))) {
      SumColumnTotal(matrix, width, values, aggregations, v, c);
    }
    TotalsOfColumnSums(totals, matrix, v, w);
  }

  /** Totals that hold the sums of the first `w` columns add up, as the
      footer adds them, to the sum of those columns. */
  lemma {:induction false} TotalsOfColumnSums(totals: seq<map<string, Option<real>>>, matrix: seq<seq<Cell>>,
                                              v: string, w: nat)
    requires w <= |totals| && forall i :: 0 <= i < |matrix| ==> w <= |matrix[i]|
    requires forall c :: 0 <= c < w ==> TotalNumber(totals[c], v) == Some(SumR(ColumnOf(matrix, c, v)))
    ensures TotalsSum(totals[..w], v) == Some(ColumnsSum(matrix, w, v))
    decreases w
  {
    if w == 0 {
      assert totals[..w] == [];
    } else {
      TotalsOfColumnSums(totals, matrix, v, w - 1);
      TotalsSumPrefix(totals, w, v, ColumnsSum(matrix, w - 1, v), SumR(ColumnOf(matrix, w - 1, v)), ColumnsSum(matrix, w, v));
    }
  }

  /** The sum over the first `w` totals is the sum over the first `w - 1`
      plus the `w`-th. */
  lemma TotalsSumPrefix(totals: seq<map<string, Option<real>>>, w: nat, v: string, before: real, last: real, sum: real)
    requires 1 <= w <= |totals| && sum == before + last
    requires TotalsSum(totals[..w - 1], v) == Some(before) && TotalNumber(totals[w - 1], v) == Some(last)
    ensures TotalsSum(totals[..w], v) == Some(sum)
  {
    assert totals[..w][..w - 1] == totals[..w - 1];
  }

  /** With the sum aggregation and whole cell values, a column's footer
      total is the exact sum of the column. */
  lemma SumColumnTotal(matrix: seq<seq<Cell>>, width: nat, values: seq<string>,
                       aggregations: map<string, string>, v: string, c: nat)
    requires Dense(matrix, width) && c < width && v in values && AggregationOf(aggregations, v) == "sum"
    requires forall i, c :: 0 <= i < |matrix| && 0 <= c < width ==> IsInteger(CellValue(matrix[i][c], v))
    ensures TotalNumber(AllColumnTotals(matrix, width, values, aggregations)[c], v) == Some(SumR(ColumnOf(matrix, c, v)))
  {
    var col := ColumnOf(matrix, c, v);
    SumRIntegers(col);
    assert ColumnTotalsOf(matrix, c, values, aggregations)[v] == Some(SumR(col));
  }

  /** The grand total of a value field summed by `sum` is the sum of its
      shown row totals: the bottom-right cell of the table agrees with the
      column of row totals above it, when every cell is a whole number. */
  lemma GrandTotalOfSums(matrix: seq<seq<Cell>>, width: nat, values: seq<string>,
                         aggregations: map<string, string>, v: string)
    requires Dense(matrix, width) && v in values && AggregationOf(aggregations, v) == "sum"
    requires forall i, c :: 0 <= i < |matrix| && 0 <= c < width ==> IsInteger(CellValue(matrix[i][c], v))
    ensures GrandTotal(AllColumnTotals(matrix, width, values, aggregations), v) == Some(MatrixSum(matrix, v))
  {
    var totals := AllColumnTotals(matrix, width, values, aggregations);
    SumTotalsAreColumnSums(matrix, width, values, aggregations, v, width);
    assert totals[..width] == totals;
    MatrixInterchange(matrix, width, v);
    assert IsInteger(ColumnsSum(matrix, width, v)) by {
      ColumnsSumIntegers(matrix, width, v);
    }
  }

  lemma {:induction false} ColumnsSumIntegers(matrix: seq<seq<Cell>>, w: nat, v: string)
    requires forall i :: 0 <= i < |matrix| ==> w <= |matrix[i]|
    requires forall i, c :: 0 <= i < |matrix| && 0 <= c < w ==> IsInteger(CellValue(matrix[i][c], v))
    ensures IsInteger(ColumnsSum(matrix, w, v))
    decreases w
  {
    if w > 0 {
      ColumnsSumIntegers(matrix, w - 1, v);
      SumRIntegers(ColumnOf(matrix, w - 1, v));
      var a := ColumnsSum(matrix, w - 1, v);
      var b := SumR(ColumnOf(matrix, w - 1, v));
      assert a + b == (a.Floor + b.Floor) as real;
    }
  }

  /** With the sum aggregation every cell of the pivot holds a whole number. */
  lemma PivotSumCellsWhole(data: seq<Record>, rows: seq<string>, columns: seq<string>, values: seq<string>,
                           aggregations: map<string, string>, v: string)
    requires Resolvable(data, rows, columns) && v in values && AggregationOf(aggregations, v) == "sum"
    ensures var p := PivotSpec(data, rows, columns, values, aggregations);
      forall i, c :: 0 <= i < |p.pivotMatrix| && 0 <= c < |p.pivotColumns| ==> IsInteger(CellValue(p.pivotMatrix[i][c], v))
  {
    var p := PivotSpec(data, rows, columns, values, aggregations);
    forall i, c | 0 <= i < |p.pivotMatrix| && 0 <= c < |p.pivotColumns|
      ensures IsInteger(CellValue(p.pivotMatrix[i][c], v))
    {
      var samples := Samples(data, rows, columns, values, PivotKey(p.pivotRows[i], p.pivotColumns[c]), v);
      assert CellValue(p.pivotMatrix[i][c], v) == Sum(samples) as real;
    }
  }

  /** The grand total of a summed value field, as `PivotTable` shows it, is
      the sum of the row totals shown for it. */
  lemma PivotGrandTotal(data: seq<Record>, rows: seq<string>, columns: seq<string>, values: seq<string>,
                        aggregations: map<string, string>, v: string)
    requires Resolvable(data, rows, columns) && v in values && AggregationOf(aggregations, v) == "sum"
    ensures var p := PivotSpec(data, rows, columns, values, aggregations);
      GrandTotal(p.columnTotals, v) == Some(MatrixSum(p.pivotMatrix, v))
  {
    var p := PivotSpec(data, rows, columns, values, aggregations);
    PivotSumCellsWhole(data, rows, columns, values, aggregations, v);
    assert p.columnTotals == AllColumnTotals(p.pivotMatrix, |p.pivotColumns|, values, aggregations);
    GrandTotalOfSums(p.pivotMatrix, |p.pivotColumns|, values, aggregations, v);
  }

  /** No row or column field resolves to a value holding `'|'`. */
  predicate BarFree(data: seq<Record>, fields: seq<string>)
  {
    forall k, f :: 0 <= k < |data| && 0 <= f < |fields| && FieldOk(data[k], fields[f]) ==> '|' !in Resolve(data[k], fields[f])
  }

  /** The number of segments of every column key: one per column field, and
      the single empty segment of the key `""` when there is no column field. */
  function Segments(columns: seq<string>): (n: nat)
    ensures n >= 1 && (|columns| >= 1 ==> n == |columns|)
  {
    if |columns| == 0 then 1 else |columns|
  }

  /** The column keys of the pivot all split into one segment per column
      field when no value holds `'|'`; without column fields every key is
      `""`, one empty segment. */
  lemma PivotColumnsUniform(data: seq<Record>, rows: seq<string>, columns: seq<string>, values: seq<string>,
                            aggregations: map<string, string>)
    requires Resolvable(data, rows, columns) && BarFree(data, columns)
    ensures Uniform(PivotSpec(data, rows, columns, values, aggregations).pivotColumns, Segments(columns))
  {
    var p := PivotSpec(data, rows, columns, values, aggregations);
    forall c | 0 <= c < |p.pivotColumns| ensures |Split(p.pivotColumns[c], Delimiter)| == Segments(columns) {
      assert p.pivotColumns[c] in p.pivotColumns;
      var k :| 0 <= k < |data| && ComposeKey(data[k], columns) == p.pivotColumns[c];
      if |columns| == 0 {
        EmptyFieldList(data[k]);
      } else {
        KeyRoundTrip(data[k], columns);
      }
    }
  }

  /** The row keys split the same way: each body row of the table draws one
      cell per segment of its row key, which is one per row field when no
      row value holds `'|'`. */
  lemma PivotRowsUniform(data: seq<Record>, rows: seq<string>, columns: seq<string>, values: seq<string>,
                         aggregations: map<string, string>)
    requires Resolvable(data, rows, columns) && BarFree(data, rows)
    ensures Uniform(PivotSpec(data, rows, columns, values, aggregations).pivotRows, Segments(rows))
  {
    var p := PivotSpec(data, rows, columns, values, aggregations);
    forall r | 0 <= r < |p.pivotRows| ensures |Split(p.pivotRows[r], Delimiter)| == Segments(rows) {
      assert p.pivotRows[r] in p.pivotRows;
      var k :| 0 <= k < |data| && ComposeKey(data[k], rows) == p.pivotRows[r];
      if |rows| == 0 {
        EmptyFieldList(data[k]);
      } else {
        KeyRoundTrip(data[k], rows);
      }
    }
  }

  /** A table with column fields but no row fields has the single row key
      `""`, whose one segment is drawn as a body cell with no row-field
      header above it: the body is one column wider than the header. */
  lemma ColumnsOnlyRowPart(data: seq<Record>, rows: seq<string>, columns: seq<string>, values: seq<string>,
                           aggregations: map<string, string>)
    requires Resolvable(data, rows, columns) && |data| > 0 && |rows| == 0 && |columns| > 0
    ensures var p := PivotSpec(data, rows, columns, values, aggregations);
      p.pivotRows == [""] && |Split(p.pivotRows[0], Delimiter)| == |rows| + 1
  {
    var p := PivotSpec(data, rows, columns, values, aggregations);
    EmptyFieldList(data[0]);
    assert "" in p.pivotRows;
    forall r | 0 <= r < |p.pivotRows| ensures p.pivotRows[r] == "" {
      assert p.pivotRows[r] in p.pivotRows;
      var k :| 0 <= k < |data| && ComposeKey(data[k], rows) == p.pivotRows[r];
      EmptyFieldList(data[k]);
    }
    assert |p.pivotRows| == 1 by {
      assert p.pivotRows[0] == p.pivotRows[|p.pivotRows| - 1];
    }
  }

  /** The sorted column keys have no repeats. */
  lemma PivotColumnsDistinct(data: seq<Record>, rows: seq<string>, columns: seq<string>, values: seq<string>,
                             aggregations: map<string, string>)
    requires Resolvable(data, rows, columns)
    ensures Distinct(PivotSpec(data, rows, columns, values, aggregations).pivotColumns)
  {
    var cols := PivotSpec(data, rows, columns, values, aggregations).pivotColumns;
    if |data| > 0 && (|rows| > 0 || |columns| > 0) {
      assert StrictlySorted(cols);
    }
  }

  /** The header's column spans match the body's value cells: every header
      row built from the column tree spans exactly the value cells of every
      body row, one per (column key, value field) pair, when the value fields
      are distinct and no column value holds `'|'`. A table without column
      fields has the single column key `""`. The row-part cells in front of
      the value cells are `PivotRowsUniform` and `ColumnsOnlyRowPart`. */
  lemma TableAligned(data: seq<Record>, rows: seq<string>, columns: seq<string>, values: seq<string>,
                     aggregations: map<string, string>)
    requires Resolvable(data, rows, columns) && BarFree(data, columns) && Distinct(values)
    ensures var p := PivotSpec(data, rows, columns, values, aggregations);
      var tree := BuildSpec(p.pivotColumns, values);
      var headers := HeaderRows(tree, MaxDepth(Node(tree)), values, aggregations);
      forall h, i :: 0 <= h < |headers| && 0 <= i < |p.pivotMatrix| ==>
        ColSpanSum(headers[h]) == |BodyCells(p.pivotMatrix[i], values)| == |p.pivotColumns| * |values|
  {
    var p := PivotSpec(data, rows, columns, values, aggregations);
    var tree := BuildSpec(p.pivotColumns, values);
    var headers := HeaderRows(tree, MaxDepth(Node(tree)), values, aggregations);
    var w := |p.pivotColumns| * |values|;
    assert forall h :: 0 <= h < |headers| ==> ColSpanSum(headers[h]) == w by {
      PivotColumnsDistinct(data, rows, columns, values, aggregations);
      PivotColumnsUniform(data, rows, columns, values, aggregations);
      HeaderSpans(p.pivotColumns, values, aggregations, Segments(columns));
    }
    BodyWidths(p.pivotMatrix, |p.pivotColumns|, values);
  }

  /** Every body row of a matrix `width` cells wide has `width * |values|` cells. */
  lemma BodyWidths(matrix: seq<seq<Cell>>, width: nat, values: seq<string>)
    requires Dense(matrix, width)
    ensures forall i :: 0 <= i < |matrix| ==> |BodyCells(matrix[i], values)| == width * |values|
  {
  }

  /** The aggregation's name in the row-total headers (src/components/PivotTable.jsx,
      lines 137-144): each of the five kinds capitalised, anything else as chosen. */
  function AggLabel(agg: string): (name: string)
    ensures agg in Kinds ==> ToLower(name) == agg && 'A' <= name[0] <= 'Z' && name[1..] == agg[1..]
    ensures agg !in Kinds ==> name == agg
  {
    if agg == "sum" then "Sum"
    else if agg == "avg" then "Avg"
    else if agg == "min" then "Min"
    else if agg == "max" then "Max"
    else if agg == "count" then "Count"
    else agg
  }
}

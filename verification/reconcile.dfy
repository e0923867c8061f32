/** The footer of the pivot table reconciled with the records: with the sum
    aggregation, the grand total of a value field is the field's total over
    all records, counted once per listing of the field. This rests on the
    grouping key `rowKey + "||" + colKey` (src/utils/pivotData.js, lines 67 and 103)
    telling the (row key, column key) pairs apart, which holds when no row
    value contains `'|'`. */
module Reconcile {
  import opened Wrappers
  import opened Strings
  import opened Ordering
  import opened Records
  import opened Keys
  import opened Aggregation
  import opened PivotData
  import opened Table

  /** Every `'|'` in `s` stands between two spaces, as in the delimiter `" | "`. */
  predicate BarsSpaced(s: string)
  {
    forall i :: 0 <= i < |s| && s[i] == '|' ==> 0 < i < |s| - 1 && s[i - 1] == ' ' && s[i + 1] == ' '
  }

  /** Values without `'|'` joined by `" | "` have their bars between spaces. */
  lemma {:induction false} JoinBarsSpaced(parts: seq<string>)
    requires forall k :: 0 <= k < |parts| ==> '|' !in parts[k]
    ensures BarsSpaced(Join(parts, Delimiter))
    decreases |parts|
  {
    if |parts| == 1 {
      assert Join(parts, Delimiter) == parts[0];
    } else if |parts| >= 2 {
      var p := parts[0];
      var rest := Join(parts[1..], Delimiter);
      JoinBarsSpaced(parts[1..]);
      var s := p + Delimiter + rest;
      assert Join(parts, Delimiter) == s;
      forall i | 0 <= i < |s| && s[i] == '|' ensures 0 < i < |s| - 1 && s[i - 1] == ' ' && s[i + 1] == ' ' {
        if i >= |p| + 3 {
          assert s[i] == rest[i - |p| - 3];
          assert s[i - 1] == rest[i - |p| - 4] && s[i + 1] == rest[i - |p| - 2];
        }
      }
    }
  }

  /** A composite key of values without `'|'` has its bars between spaces. */
  lemma KeyBarsSpaced(item: Record, fields: seq<string>)
    requires FieldsOk(item, fields)
    requires forall f :: 0 <= f < |fields| ==> '|' !in Resolve(item, fields[f])
    ensures BarsSpaced(ComposeKey(item, fields))
  {
    JoinBarsSpaced(Resolved(item, fields));
  }

  /** In `rowKey + "||" + colKey`, the first `"||"` is the joining one when
      the row key's bars are between spaces. */
  lemma FirstDoubleBar(r: string, c: string)
    requires BarsSpaced(r)
    ensures IndexOf(PivotKey(r, c), "||", 0) == Some(|r|)
  {
    var s := PivotKey(r, c);
    assert s[|r|..|r| + 2] == "||";
    assert OccursAt(s, "||", |r|);
    forall j: nat | j < |r| ensures !OccursAt(s, "||", j) {
      if OccursAt(s, "||", j) {
        assert s[j] == '|' && s[j + 1] == '|' by {
          assert s[j..j + 2][0] == s[j] && s[j..j + 2][1] == s[j + 1];
        }
      }
    }
  }

  /** Pivot keys tell their (row key, column key) pairs apart when the row
      keys have their bars between spaces. */
  lemma PivotKeyInjective(r: string, c: string, r2: string, c2: string)
    requires BarsSpaced(r) && BarsSpaced(r2) && PivotKey(r, c) == PivotKey(r2, c2)
    ensures r == r2 && c == c2
  {
    FirstDoubleBar(r, c);
    FirstDoubleBar(r2, c2);
    var s := PivotKey(r, c);
    assert r == s[..|r|] && r2 == s[..|r2|];
    assert c == s[|r| + 2..] && c2 == s[|r2| + 2..];
  }

  /** Without that, two pairs can share a group: the row key `"a|"` with the
      column key `"b"`, and `"a"` with `"|b"`, are both grouped under `"a|||b"`. */
  lemma PivotKeyCollision()
    ensures "a|" != "a" && PivotKey("a|", "b") == PivotKey("a", "|b")
  {
  }

  /** The number a record holds for `v`, or 0. */
  function FieldNumber(item: Record, v: string): int
  {
    if Get(item, v).Some? && Get(item, v).value.Num? then Get(item, v).value.n else 0
  }

  /** The total of `v` over the records, non-numbers counting 0. */
  function DataTotal(data: seq<Record>, v: string): int
  {
    if data == [] then 0 else DataTotal(data[..|data| - 1], v) + FieldNumber(data[|data| - 1], v)
  }

  lemma {:induction false} SumAppend(a: seq<int>, b: seq<int>)
    ensures Sum(a + b) == Sum(a) + Sum(b)
    decreases |b|
  {
    if b == [] {
      assert a + b == a;
    } else {
      SumAppend(a, b[..|b| - 1]);
      assert (a + b)[..|a + b| - 1] == a + b[..|b| - 1];
    }
  }

  /** A record contributes its number once per listing of the field. */
  lemma {:induction false} ContributionSum(item: Record, values: seq<string>, v: string)
    ensures Sum(Contribution(item, values, v)) == Occurrences(values, v) * FieldNumber(item, v)
    decreases |values|
  {
    if values != [] {
      var init := values[..|values| - 1];
      ContributionSum(item, init, v);
      var n := FieldNumber(item, v);
      var c := Contribution(item, init, v);
      var d := if values[|values| - 1] == v then 1 else 0;
      assert Occurrences(values, v) == Occurrences(init, v) + d;
      MulAdd(Occurrences(init, v), d, n);
      if values[|values| - 1] == v && Get(item, v).Some? && Get(item, v).value.Num? {
        assert Contribution(item, values, v) == c + [n];
        SumAppend(c, [n]);
      } else {
        assert Contribution(item, values, v) == c + [];
        assert c + [] == c;
        assert d * n == 0;
      }
    }
  }

  /** A function of the group keys added up over a list of keys. */
  function KeysTotal(f: string -> int, keys: seq<string>): int
  {
    if keys == [] then 0 else KeysTotal(f, keys[..|keys| - 1]) + f(keys[|keys| - 1])
  }

  lemma {:induction false} KeysTotalAppend(f: string -> int, a: seq<string>, b: seq<string>)
    ensures KeysTotal(f, a + b) == KeysTotal(f, a) + KeysTotal(f, b)
    decreases |b|
  {
    if b == [] {
      assert a + b == a;
    } else {
      KeysTotalAppend(f, a, b[..|b| - 1]);
      assert (a + b)[..|a + b| - 1] == a + b[..|b| - 1];
    }
  }

  /** Raising one key's term by `c` raises the total by `c` per listing of that key. */
  lemma {:induction false} KeysTotalShift(f: string -> int, g: string -> int, keys: seq<string>, key: string, c: int)
    requires forall k :: g(k) == f(k) + (if k == key then c else 0)
    ensures KeysTotal(g, keys) == KeysTotal(f, keys) + multiset(keys)[key] * c
    decreases |keys|
  {
    if keys != [] {
      var init := keys[..|keys| - 1];
      var k := keys[|keys| - 1];
      KeysTotalShift(f, g, init, key, c);
      assert keys == init + [k];
      var d := if k == key then 1 else 0;
      assert multiset(keys)[key] == multiset(init)[key] + d;
      MulAdd(multiset(init)[key], d, c);
    }
  }

  lemma MulAdd(m: int, d: int, c: int)
    ensures (m + d) * c == m * c + d * c
    ensures c * (m + d) == c * m + c * d
  {
  }

  lemma {:induction false} KeysTotalZero(f: string -> int, keys: seq<string>)
    requires forall k :: f(k) == 0
    ensures KeysTotal(f, keys) == 0
    decreases |keys|
  {
    if keys != [] {
      KeysTotalZero(f, keys[..|keys| - 1]);
    }
  }

  /** The sum of the samples of each group, for value field `v`. */
  function GroupSums(data: seq<Record>, rows: seq<string>, columns: seq<string>, values: seq<string>, v: string)
    : string -> int
    requires Resolvable(data, rows, columns)
  {
    k => Sum(Samples(data, rows, columns, values, k, v))
  }

  /** The samples of a group gain the last record's contribution exactly
      when the record belongs to the group. */
  lemma GroupSumsSnoc(data: seq<Record>, rows: seq<string>, columns: seq<string>, values: seq<string>, v: string)
    requires Resolvable(data, rows, columns) && data != []
    ensures Resolvable(data[..|data| - 1], rows, columns)
    ensures forall k ::
      GroupSums(data, rows, columns, values, v)(k) == GroupSums(data[..|data| - 1], rows, columns, values, v)(k)
        + (if k == ItemKey(data[|data| - 1], rows, columns) then Sum(Contribution(data[|data| - 1], values, v)) else 0)
  {
    var n := |data| - 1;
    ResolvablePrefix(data, rows, columns, n);
    var last := data[n];
    forall k ensures Sum(Samples(data, rows, columns, values, k, v))
      == Sum(Samples(data[..n], rows, columns, values, k, v))
         + (if k == ItemKey(last, rows, columns) then Sum(Contribution(last, values, v)) else 0)
    {
      var extra := if ItemKey(last, rows, columns) == k then Contribution(last, values, v) else [];
      SumAppend(Samples(data[..n], rows, columns, values, k, v), extra);
    }
  }

  /** A last record listed once adds its contribution to the groups' total. */
  lemma KeysTotalSnoc(data: seq<Record>, rows: seq<string>, columns: seq<string>,
                      values: seq<string>, keys: seq<string>, v: string)
    requires Resolvable(data, rows, columns) && data != []
    requires multiset(keys)[ItemKey(data[|data| - 1], rows, columns)] == 1
    ensures Resolvable(data[..|data| - 1], rows, columns)
    ensures KeysTotal(GroupSums(data, rows, columns, values, v), keys)
      == KeysTotal(GroupSums(data[..|data| - 1], rows, columns, values, v), keys) + Sum(Contribution(data[|data| - 1], values, v))
  {
    var n := |data| - 1;
    var init := data[..n];
    GroupSumsSnoc(data, rows, columns, values, v);
    KeysTotalShift(GroupSums(init, rows, columns, values, v), GroupSums(data, rows, columns, values, v),
      keys, ItemKey(data[n], rows, columns), Sum(Contribution(data[n], values, v)));
  }

  /** What all the records push onto the sample lists of `v`, added up. */
  function AllPushed(data: seq<Record>, values: seq<string>, v: string): int
  {
    if data == [] then 0 else AllPushed(data[..|data| - 1], values, v) + Sum(Contribution(data[|data| - 1], values, v))
  }

  /** The records push the field's total once per listing of the field. */
  lemma {:induction false} AllPushedTotal(data: seq<Record>, values: seq<string>, v: string)
    ensures AllPushed(data, values, v) == Occurrences(values, v) * DataTotal(data, v)
    decreases |data|
  {
    if data != [] {
      var n := |data| - 1;
      AllPushedTotal(data[..n], values, v);
      ContributionSum(data[n], values, v);
      MulAdd(DataTotal(data[..n], v), FieldNumber(data[n], v), Occurrences(values, v));
    }
  }

  /** Every record's group key is listed exactly once among `keys`. */
  predicate ListedOnceEach(data: seq<Record>, rows: seq<string>, columns: seq<string>, keys: seq<string>)
    requires Resolvable(data, rows, columns)
  {
    forall k :: 0 <= k < |data| ==> multiset(keys)[ItemKey(data[k], rows, columns)] == 1
  }

  lemma ListedOncePrefix(data: seq<Record>, rows: seq<string>, columns: seq<string>, keys: seq<string>)
    requires Resolvable(data, rows, columns) && data != [] && ListedOnceEach(data, rows, columns, keys)
    ensures Resolvable(data[..|data| - 1], rows, columns)
    ensures ListedOnceEach(data[..|data| - 1], rows, columns, keys)
    ensures multiset(keys)[ItemKey(data[|data| - 1], rows, columns)] == 1
  {
    var init := data[..|data| - 1];
    ResolvablePrefix(data, rows, columns, |data| - 1);
    forall k | 0 <= k < |init| ensures multiset(keys)[ItemKey(init[k], rows, columns)] == 1 {
      assert init[k] == data[k];
    }
  }

  /** When every record's group key is listed exactly once, the groups'
      samples add up to everything the records pushed. */
  lemma {:induction false} KeysTotalData(data: seq<Record>, rows: seq<string>, columns: seq<string>,
                                         values: seq<string>, keys: seq<string>, v: string)
    requires Resolvable(data, rows, columns) && ListedOnceEach(data, rows, columns, keys)
    ensures KeysTotal(GroupSums(data, rows, columns, values, v), keys) == AllPushed(data, values, v)
    decreases |data|
  {
    if data == [] {
      KeysTotalZero(GroupSums(data, rows, columns, values, v), keys);
    } else {
      ListedOncePrefix(data, rows, columns, keys);
      KeysTotalSnoc(data, rows, columns, values, keys, v);
      KeysTotalData(data[..|data| - 1], rows, columns, values, keys, v);
    }
  }

  /** The group keys of one pivot row, column by column. */
  function RowKeys(r: string, pivotColumns: seq<string>): (ks: seq<string>)
    ensures |ks| == |pivotColumns| && forall j :: 0 <= j < |pivotColumns| ==> ks[j] == PivotKey(r, pivotColumns[j])
  {
    seq(|pivotColumns|, j requires 0 <= j < |pivotColumns| => PivotKey(r, pivotColumns[j]))
  }

  /** The group keys of the whole matrix, row by row. */
  function PairKeys(pivotRows: seq<string>, pivotColumns: seq<string>): seq<string>
  {
    if pivotRows == [] then []
    else PairKeys(pivotRows[..|pivotRows| - 1], pivotColumns) + RowKeys(pivotRows[|pivotRows| - 1], pivotColumns)
  }

  /** The key of every (row, column) pair is among the matrix's group keys. */
  lemma {:induction false} PairKeysHas(pivotRows: seq<string>, pivotColumns: seq<string>, i: nat, j: nat)
    requires i < |pivotRows| && j < |pivotColumns|
    ensures PivotKey(pivotRows[i], pivotColumns[j]) in PairKeys(pivotRows, pivotColumns)
    decreases |pivotRows|
  {
    var n := |pivotRows| - 1;
    if i < n {
      PairKeysHas(pivotRows[..n], pivotColumns, i, j);
      assert pivotRows[..n][i] == pivotRows[i];
    } else {
      assert RowKeys(pivotRows[n], pivotColumns)[j] == PivotKey(pivotRows[i], pivotColumns[j]);
    }
  }

  /** The matrix's group keys are keys of (row, column) pairs only. */
  lemma {:induction false} PairKeysOnly(pivotRows: seq<string>, pivotColumns: seq<string>, k: string)
    requires k in PairKeys(pivotRows, pivotColumns)
    ensures exists i, j :: 0 <= i < |pivotRows| && 0 <= j < |pivotColumns| && k == PivotKey(pivotRows[i], pivotColumns[j])
    decreases |pivotRows|
  {
    var n := |pivotRows| - 1;
    var init := pivotRows[..n];
    var row := RowKeys(pivotRows[n], pivotColumns);
    if k in row {
      var j :| 0 <= j < |row| && row[j] == k;
      assert k == PivotKey(pivotRows[n], pivotColumns[j]);
    } else {
      PairKeysOnly(init, pivotColumns, k);
      var i, j :| 0 <= i < |init| && 0 <= j < |pivotColumns| && k == PivotKey(init[i], pivotColumns[j]);
      assert init[i] == pivotRows[i];
    }
  }

  lemma DistinctAppend(a: seq<string>, b: seq<string>)
    requires Distinct(a) && Distinct(b) && forall x :: x in a ==> x !in b
    ensures Distinct(a + b)
  {
    var s := a + b;
    forall i, j | 0 <= i < j < |s| ensures s[i] != s[j] {
      if i < |a| && j >= |a| {
        assert s[i] in a && s[j] == b[j - |a|];
      } else if i >= |a| {
        assert s[i] == b[i - |a|] && s[j] == b[j - |a|];
      }
    }
  }

  /** Distinct row keys with their bars between spaces and distinct column
      keys give distinct group keys. */
  lemma {:induction false} PairKeysDistinct(pivotRows: seq<string>, pivotColumns: seq<string>)
    requires Distinct(pivotRows) && Distinct(pivotColumns)
    requires forall i :: 0 <= i < |pivotRows| ==> BarsSpaced(pivotRows[i])
    ensures Distinct(PairKeys(pivotRows, pivotColumns))
    decreases |pivotRows|
  {
    if pivotRows != [] {
      var n := |pivotRows| - 1;
      var init := pivotRows[..n];
      var r := pivotRows[n];
      assert forall i :: 0 <= i < n ==> init[i] == pivotRows[i];
      PairKeysDistinct(init, pivotColumns);
      var row := RowKeys(r, pivotColumns);
      forall i, j | 0 <= i < j < |row| ensures row[i] != row[j] {
        if row[i] == row[j] {
          PivotKeyInjective(r, pivotColumns[i], r, pivotColumns[j]);
        }
      }
      forall x | x in PairKeys(init, pivotColumns) ensures x !in row {
        PairKeysOnly(init, pivotColumns, x);
        var i, j :| 0 <= i < |init| && 0 <= j < |pivotColumns| && x == PivotKey(init[i], pivotColumns[j]);
        if x in row {
          var j2 :| 0 <= j2 < |row| && row[j2] == x;
          PivotKeyInjective(init[i], pivotColumns[j], r, pivotColumns[j2]);
        }
      }
      DistinctAppend(PairKeys(init, pivotColumns), row);
    }
  }

  /** A matrix row whose cells are the pivot's cells for row key `r`. */
  predicate IsPivotRow(data: seq<Record>, rows: seq<string>, columns: seq<string>, values: seq<string>,
                       aggregations: map<string, string>, r: string, pivotColumns: seq<string>, row: seq<Cell>)
    requires Resolvable(data, rows, columns)
  {
    |row| == |pivotColumns| &&
    forall j :: 0 <= j < |row| ==> row[j] == SpecCell(data, rows, columns, values, aggregations, r, pivotColumns[j])
  }

  /** With the sum aggregation, a row's shown total for `v` is the samples
      of its groups added up. */
  lemma {:induction false} RowTotalIsKeysTotal(data: seq<Record>, rows: seq<string>, columns: seq<string>,
                                               values: seq<string>, aggregations: map<string, string>,
                                               r: string, pivotColumns: seq<string>, row: seq<Cell>, v: string)
    requires Resolvable(data, rows, columns) && v in values && AggregationOf(aggregations, v) == "sum"
    requires IsPivotRow(data, rows, columns, values, aggregations, r, pivotColumns, row)
    ensures RowValueTotal(row, v) == KeysTotal(GroupSums(data, rows, columns, values, v), RowKeys(r, pivotColumns)) as real
    decreases |row|
  {
    if row != [] {
      var n := |row| - 1;
      assert RowKeys(r, pivotColumns)[..n] == RowKeys(r, pivotColumns[..n]);
      RowTotalIsKeysTotal(data, rows, columns, values, aggregations, r, pivotColumns[..n], row[..n], v);
      assert CellValue(row[n], v) == Sum(Samples(data, rows, columns, values, PivotKey(r, pivotColumns[n]), v)) as real;
    }
  }

  /** With the sum aggregation, the matrix total for `v` is the samples of
      all its groups added up. */
  lemma {:induction false} MatrixSumIsKeysTotal(data: seq<Record>, rows: seq<string>, columns: seq<string>,
                                                values: seq<string>, aggregations: map<string, string>,
                                                pivotRows: seq<string>, pivotColumns: seq<string>,
                                                matrix: seq<seq<Cell>>, v: string)
    requires Resolvable(data, rows, columns) && v in values && AggregationOf(aggregations, v) == "sum"
    requires |matrix| == |pivotRows|
    requires forall i :: 0 <= i < |matrix| ==>
      IsPivotRow(data, rows, columns, values, aggregations, pivotRows[i], pivotColumns, matrix[i])
    ensures MatrixSum(matrix, v) == KeysTotal(GroupSums(data, rows, columns, values, v), PairKeys(pivotRows, pivotColumns)) as real
    decreases |matrix|
  {
    if matrix != [] {
      var n := |matrix| - 1;
      var f := GroupSums(data, rows, columns, values, v);
      forall i | 0 <= i < n
        ensures IsPivotRow(data, rows, columns, values, aggregations, pivotRows[..n][i], pivotColumns, matrix[..n][i])
      {
        assert matrix[..n][i] == matrix[i] && pivotRows[..n][i] == pivotRows[i];
      }
      MatrixSumIsKeysTotal(data, rows, columns, values, aggregations, pivotRows[..n], pivotColumns, matrix[..n], v);
      RowTotalIsKeysTotal(data, rows, columns, values, aggregations, pivotRows[n], pivotColumns, matrix[n], v);
      KeysTotalAppend(f, PairKeys(pivotRows[..n], pivotColumns), RowKeys(pivotRows[n], pivotColumns));
    }
  }

  /** A listed key of a list without repeats is listed once. */
  lemma ListedOnce(s: seq<string>, x: string)
    requires Distinct(s) && x in s
    ensures multiset(s)[x] == 1
  {
    DistinctCount(s, x);
  }

  /** The key of a pair of distinct pivot rows (bars between spaces) and
      distinct pivot columns is listed once among the matrix's group keys. */
  lemma PairListedOnce(pivotRows: seq<string>, pivotColumns: seq<string>, i: nat, j: nat)
    requires Distinct(pivotRows) && Distinct(pivotColumns)
    requires forall i :: 0 <= i < |pivotRows| ==> BarsSpaced(pivotRows[i])
    requires i < |pivotRows| && j < |pivotColumns|
    ensures multiset(PairKeys(pivotRows, pivotColumns))[PivotKey(pivotRows[i], pivotColumns[j])] == 1
  {
    PairKeysDistinct(pivotRows, pivotColumns);
    PairKeysHas(pivotRows, pivotColumns, i, j);
    ListedOnce(PairKeys(pivotRows, pivotColumns), PivotKey(pivotRows[i], pivotColumns[j]));
  }

  /** Each record's group is listed once among the matrix's group keys when
      its key is the key of a pair of distinct pivot rows and columns whose
      row keys have their bars between spaces. */
  lemma GroupsListedOnce(data: seq<Record>, rows: seq<string>, columns: seq<string>,
                         pivotRows: seq<string>, pivotColumns: seq<string>)
    requires Resolvable(data, rows, columns)
    requires Distinct(pivotRows) && Distinct(pivotColumns)
    requires forall i :: 0 <= i < |pivotRows| ==> BarsSpaced(pivotRows[i])
    requires forall k :: 0 <= k < |data| ==>
      exists i, j :: 0 <= i < |pivotRows| && 0 <= j < |pivotColumns| &&
        PivotKey(pivotRows[i], pivotColumns[j]) == ItemKey(data[k], rows, columns)
    ensures ListedOnceEach(data, rows, columns, PairKeys(pivotRows, pivotColumns))
  {
    forall k | 0 <= k < |data|
      ensures multiset(PairKeys(pivotRows, pivotColumns))[ItemKey(data[k], rows, columns)] == 1
    {
      var i, j :| 0 <= i < |pivotRows| && 0 <= j < |pivotColumns| &&
        PivotKey(pivotRows[i], pivotColumns[j]) == ItemKey(data[k], rows, columns);
      PairListedOnce(pivotRows, pivotColumns, i, j);
    }
  }

  /** The row keys of the pivot have their bars between spaces when no row
      value contains `'|'`. */
  lemma PivotRowsSpaced(data: seq<Record>, rows: seq<string>, columns: seq<string>, values: seq<string>,
                        aggregations: map<string, string>)
    requires Resolvable(data, rows, columns) && BarFree(data, rows)
    ensures var p := PivotSpec(data, rows, columns, values, aggregations);
      forall i :: 0 <= i < |p.pivotRows| ==> BarsSpaced(p.pivotRows[i])
  {
    var p := PivotSpec(data, rows, columns, values, aggregations);
    forall i | 0 <= i < |p.pivotRows| ensures BarsSpaced(p.pivotRows[i]) {
      assert p.pivotRows[i] in p.pivotRows;
      var k :| 0 <= k < |data| && ComposeKey(data[k], rows) == p.pivotRows[i];
      KeyBarsSpaced(data[k], rows);
    }
  }

  /** A matrix laid out over distinct row keys (bars between spaces) and
      distinct column keys, row by row the cells of the records, with a cell
      for every record. */
  predicate LaidOut(data: seq<Record>, rows: seq<string>, columns: seq<string>, values: seq<string>,
                    aggregations: map<string, string>, pivotRows: seq<string>, pivotColumns: seq<string>,
                    matrix: seq<seq<Cell>>)
    requires Resolvable(data, rows, columns)
  {
    |matrix| == |pivotRows| && Distinct(pivotRows) && Distinct(pivotColumns) &&
    (forall i :: 0 <= i < |pivotRows| ==> BarsSpaced(pivotRows[i])) &&
    (forall i :: 0 <= i < |matrix| ==>
      IsPivotRow(data, rows, columns, values, aggregations, pivotRows[i], pivotColumns, matrix[i])) &&
    (forall k :: 0 <= k < |data| ==>
      exists i, j :: 0 <= i < |pivotRows| && 0 <= j < |pivotColumns| &&
        PivotKey(pivotRows[i], pivotColumns[j]) == ItemKey(data[k], rows, columns))
  }

  /** The matrix rows of the pivot are its cells row by row, its row and
      column keys are distinct, and every record has its cell. */
  lemma PivotLayout(data: seq<Record>, rows: seq<string>, columns: seq<string>, values: seq<string>,
                    aggregations: map<string, string>)
    requires Resolvable(data, rows, columns) && (|rows| > 0 || |columns| > 0)
    ensures var p := PivotSpec(data, rows, columns, values, aggregations);
      |p.pivotMatrix| == |p.pivotRows| && Distinct(p.pivotRows) && Distinct(p.pivotColumns) &&
      (forall i :: 0 <= i < |p.pivotMatrix| ==>
        IsPivotRow(data, rows, columns, values, aggregations, p.pivotRows[i], p.pivotColumns, p.pivotMatrix[i])) &&
      (forall k :: 0 <= k < |data| ==>
        exists i, j :: 0 <= i < |p.pivotRows| && 0 <= j < |p.pivotColumns| &&
          PivotKey(p.pivotRows[i], p.pivotColumns[j]) == ItemKey(data[k], rows, columns))
  {
    forall k | 0 <= k < |data| {
      RecordHasCell(data, rows, columns, values, aggregations, k);
    }
  }

  /** The pivot's matrix is laid out that way when no row value contains `'|'`. */
  lemma PivotLaidOut(data: seq<Record>, rows: seq<string>, columns: seq<string>, values: seq<string>,
                     aggregations: map<string, string>)
    requires Resolvable(data, rows, columns) && (|rows| > 0 || |columns| > 0) && BarFree(data, rows)
    ensures LaidOut(data, rows, columns, values, aggregations,
      PivotSpec(data, rows, columns, values, aggregations).pivotRows,
      PivotSpec(data, rows, columns, values, aggregations).pivotColumns,
      PivotSpec(data, rows, columns, values, aggregations).pivotMatrix)
  {
    PivotRowsSpaced(data, rows, columns, values, aggregations);
    PivotLayout(data, rows, columns, values, aggregations);
  }

  /** A laid-out matrix sums to the field's total over the records. */
  lemma MatrixSumIsDataTotal(data: seq<Record>, rows: seq<string>, columns: seq<string>, values: seq<string>,
                             aggregations: map<string, string>, pivotRows: seq<string>, pivotColumns: seq<string>,
                             matrix: seq<seq<Cell>>, v: string)
    requires Resolvable(data, rows, columns) && v in values && AggregationOf(aggregations, v) == "sum"
    requires LaidOut(data, rows, columns, values, aggregations, pivotRows, pivotColumns, matrix)
    ensures MatrixSum(matrix, v) == (Occurrences(values, v) * DataTotal(data, v)) as real
  {
    MatrixSumIsKeysTotal(data, rows, columns, values, aggregations, pivotRows, pivotColumns, matrix, v);
    GroupsListedOnce(data, rows, columns, pivotRows, pivotColumns);
    KeysTotalData(data, rows, columns, values, PairKeys(pivotRows, pivotColumns), v);
    AllPushedTotal(data, values, v);
  }

  /** With the sum aggregation, the pivot's matrix sums to the field's total
      over the records, once per listing of the field. */
  lemma PivotMatrixSum(data: seq<Record>, rows: seq<string>, columns: seq<string>, values: seq<string>,
                       aggregations: map<string, string>, v: string)
    requires Resolvable(data, rows, columns) && (|rows| > 0 || |columns| > 0) && BarFree(data, rows)
    requires v in values && AggregationOf(aggregations, v) == "sum"
    ensures MatrixSum(PivotSpec(data, rows, columns, values, aggregations).pivotMatrix, v)
      == (Occurrences(values, v) * DataTotal(data, v)) as real
  {
    var p := PivotSpec(data, rows, columns, values, aggregations);
    PivotLaidOut(data, rows, columns, values, aggregations);
    MatrixSumIsDataTotal(data, rows, columns, values, aggregations, p.pivotRows, p.pivotColumns, p.pivotMatrix, v);
  }

  /** The grand total of a summed value field is the field's total over all
      records (once per listing of the field among the value fields), when
      the table has row or column fields and no row value contains `'|'`. */
  lemma GrandTotalIsDataTotal(data: seq<Record>, rows: seq<string>, columns: seq<string>, values: seq<string>,
                              aggregations: map<string, string>, v: string)
    requires Resolvable(data, rows, columns) && (|rows| > 0 || |columns| > 0) && BarFree(data, rows)
    requires v in values && AggregationOf(aggregations, v) == "sum"
    ensures GrandTotal(PivotSpec(data, rows, columns, values, aggregations).columnTotals, v)
      == Some((Occurrences(values, v) * DataTotal(data, v)) as real)
  {
    PivotGrandTotal(data, rows, columns, values, aggregations, v);
    PivotMatrixSum(data, rows, columns, values, aggregations, v);
  }
}

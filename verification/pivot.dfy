/** `generatePivotData` (src/utils/pivotData.js): grouping of the numeric
    samples of each record under its (row key, column key) pair, the sorted
    distinct row and column keys, the dense matrix of aggregated cells and
    the row and column totals. */
module PivotData {
  import opened Wrappers
  import opened Strings
  import opened Ordering
  import opened Records
  import opened Keys
  import opened Aggregation

  /** Every row and column field can be resolved against every record. */
  predicate Resolvable(data: seq<Record>, rows: seq<string>, columns: seq<string>)
  {
    forall i :: 0 <= i < |data| ==> FieldsOk(data[i], rows) && FieldsOk(data[i], columns)
  }

  /** The key of a (row key, column key) pair in the grouping map. */
  function PivotKey(rowKey: string, colKey: string): string
  {
    rowKey + "||" + colKey
  }

  /** The grouping key of one record. */
  function ItemKey(item: Record, rows: seq<string>, columns: seq<string>): string
    requires FieldsOk(item, rows) && FieldsOk(item, columns)
  {
    PivotKey(ComposeKey(item, rows), ComposeKey(item, columns))
  }

  /** The composite key of every record, in record order. */
  function KeyList(data: seq<Record>, fields: seq<string>): (r: seq<string>)
    requires forall i :: 0 <= i < |data| ==> FieldsOk(data[i], fields)
    ensures |r| == |data|
    ensures forall i :: 0 <= i < |data| ==> r[i] == ComposeKey(data[i], fields)
  {
    seq(|data|, i requires 0 <= i < |data| => ComposeKey(data[i], fields))
  }

  /** A key is listed exactly when some record has it. */
  lemma KeyListMembers(data: seq<Record>, fields: seq<string>)
    requires forall i :: 0 <= i < |data| ==> FieldsOk(data[i], fields)
    ensures forall key :: key in KeyList(data, fields) <==> exists i :: 0 <= i < |data| && ComposeKey(data[i], fields) == key
  {
    var keys := KeyList(data, fields);
    forall key | key in keys ensures exists i :: 0 <= i < |data| && ComposeKey(data[i], fields) == key {
      var i :| 0 <= i < |keys| && keys[i] == key;
      assert ComposeKey(data[i], fields) == key;
    }
    forall key | exists i :: 0 <= i < |data| && ComposeKey(data[i], fields) == key ensures key in keys {
      var i :| 0 <= i < |data| && ComposeKey(data[i], fields) == key;
      assert keys[i] == key;
    }
  }

  /** How many times `v` is listed among the value fields. */
  function Occurrences(values: seq<string>, v: string): nat
  {
    if values == [] then 0
    else Occurrences(values[..|values| - 1], v) + (if values[|values| - 1] == v then 1 else 0)
  }

  /** What one record pushes onto the sample list of `v` in its group, one
      value field at a time: its number for each listing of `v`, and nothing
      when its value is not a number. */
  function Contribution(item: Record, values: seq<string>, v: string): seq<int>
  {
    if values == [] then []
    else
      Contribution(item, values[..|values| - 1], v)
      + (if values[|values| - 1] == v && Get(item, v).Some? && Get(item, v).value.Num? then [Get(item, v).value.n] else [])
  }

  /** A record contributes only its own number for `v`, and does so exactly
      when `v` is a value field and the record's value is a number. */
  lemma {:induction false} ContributionMembers(item: Record, values: seq<string>, v: string, x: int)
    ensures x in Contribution(item, values, v) <==> v in values && Get(item, v) == Some(Num(x))
    decreases |values|
  {
    if values != [] {
      var init := values[..|values| - 1];
      ContributionMembers(item, init, v, x);
      assert values == init + [values[|values| - 1]];
    }
  }

  /** A record's number is pushed once per listing of the field among the
      value fields. */
  lemma {:induction false} ContributionLength(item: Record, values: seq<string>, v: string)
    ensures |Contribution(item, values, v)| ==
      if Get(item, v).Some? && Get(item, v).value.Num? then Occurrences(values, v) else 0
    decreases |values|
  {
    if values != [] {
      ContributionLength(item, values[..|values| - 1], v);
    }
  }

  /** The samples grouped under `pk` for value field `v`, in record order. */
  function Samples(data: seq<Record>, rows: seq<string>, columns: seq<string>, values: seq<string>,
                   pk: string, v: string): seq<int>
    requires Resolvable(data, rows, columns)
    decreases |data|
  {
    if data == [] then []
    else
      var last := data[|data| - 1];
      Samples(data[..|data| - 1], rows, columns, values, pk, v)
        + (if ItemKey(last, rows, columns) == pk then Contribution(last, values, v) else [])
  }

  /** A record is grouped under `pk` and holds the number `x` for `v`. */
  predicate Holds(item: Record, rows: seq<string>, columns: seq<string>, pk: string, v: string, x: int)
    requires FieldsOk(item, rows) && FieldsOk(item, columns)
  {
    ItemKey(item, rows, columns) == pk && Get(item, v) == Some(Num(x))
  }

  /** A number is among the samples of `pk` and `v` exactly when some record
      grouped under `pk` holds that number for `v`, and `v` is a value field. */
  lemma {:induction false} SamplesMembers(data: seq<Record>, rows: seq<string>, columns: seq<string>,
                                           values: seq<string>, pk: string, v: string, x: int)
    requires Resolvable(data, rows, columns)
    ensures x in Samples(data, rows, columns, values, pk, v) <==>
      v in values && exists i :: 0 <= i < |data| && Holds(data[i], rows, columns, pk, v, x)
    decreases |data|
  {
    if data != [] {
      var init := data[..|data| - 1];
      var last := data[|data| - 1];
      ResolvablePrefix(data, rows, columns, |data| - 1);
      SamplesMembers(init, rows, columns, values, pk, v, x);
      ContributionMembers(last, values, v, x);
      SamplesSnocMembers(data, rows, columns, values, pk, v, x);
      HoldsSnoc(data, init, rows, columns, pk, v, x);
    }
  }

  /** One step of `Samples`, read as membership. */
  lemma SamplesSnocMembers(data: seq<Record>, rows: seq<string>, columns: seq<string>,
                           values: seq<string>, pk: string, v: string, x: int)
    requires Resolvable(data, rows, columns) && data != []
    ensures Resolvable(data[..|data| - 1], rows, columns)
    ensures x in Samples(data, rows, columns, values, pk, v) <==>
      x in Samples(data[..|data| - 1], rows, columns, values, pk, v)
      || (ItemKey(data[|data| - 1], rows, columns) == pk && x in Contribution(data[|data| - 1], values, v))
  {
    ResolvablePrefix(data, rows, columns, |data| - 1);
  }

  /** Some record of a non-empty list holds `x` exactly when one of the
      earlier records does or the last one does. */
  lemma HoldsSnoc(data: seq<Record>, init: seq<Record>, rows: seq<string>, columns: seq<string>,
                  pk: string, v: string, x: int)
    requires Resolvable(data, rows, columns) && data != [] && init == data[..|data| - 1]
    ensures Resolvable(init, rows, columns)
    ensures (exists i :: 0 <= i < |data| && Holds(data[i], rows, columns, pk, v, x))
      <==> (exists i :: 0 <= i < |init| && Holds(init[i], rows, columns, pk, v, x))
           || Holds(data[|data| - 1], rows, columns, pk, v, x)
  {
    ResolvablePrefix(data, rows, columns, |data| - 1);
    if exists i :: 0 <= i < |data| - 1 && Holds(data[i], rows, columns, pk, v, x) {
      var i :| 0 <= i < |data| - 1 && Holds(data[i], rows, columns, pk, v, x);
      assert init[i] == data[i];
    }
    if exists i :: 0 <= i < |init| && Holds(init[i], rows, columns, pk, v, x) {
      var i :| 0 <= i < |init| && Holds(init[i], rows, columns, pk, v, x);
      assert data[i] == init[i];
    }
  }

  /** The grouping map: pivot key, then value field, to the samples pushed. */
  type PivotMap = map<string, map<string, seq<int>>>

  /** `group[v] || []` for the sample lists of one group. */
  function SamplesIn(group: map<string, seq<int>>, v: string): seq<int>
  {
    if v in group then group[v] else []
  }

  /** `(pivotMap.get(pivotKey) || {})[val] || []`. */
  function Lookup(m: PivotMap, pk: string, v: string): seq<int>
  {
    if pk in m then SamplesIn(m[pk], v) else []
  }

  /** The grouping keys of a list of records. */
  function KeySet(data: seq<Record>, rows: seq<string>, columns: seq<string>): set<string>
    requires Resolvable(data, rows, columns)
  {
    set i | 0 <= i < |data| :: ItemKey(data[i], rows, columns)
  }

  /** Every prefix of resolvable records is resolvable. */
  lemma ResolvablePrefix(data: seq<Record>, rows: seq<string>, columns: seq<string>, i: nat)
    requires Resolvable(data, rows, columns) && i <= |data|
    ensures Resolvable(data[..i], rows, columns)
  {
    assert forall j :: 0 <= j < i ==> data[..i][j] == data[j];
  }

  /** Adding a record adds its contribution to its own group only. */
  lemma SamplesSnoc(data: seq<Record>, rows: seq<string>, columns: seq<string>, values: seq<string>, i: nat)
    requires Resolvable(data, rows, columns) && i < |data|
    ensures Resolvable(data[..i], rows, columns) && Resolvable(data[..i + 1], rows, columns)
    ensures forall pk, v ::
      (Samples(data[..i + 1], rows, columns, values, pk, v) ==
         Samples(data[..i], rows, columns, values, pk, v)
         + (if ItemKey(data[i], rows, columns) == pk then Contribution(data[i], values, v) else []))
  {
    ResolvablePrefix(data, rows, columns, i);
    ResolvablePrefix(data, rows, columns, i + 1);
    assert data[..i + 1][..i] == data[..i];
    assert data[..i + 1][i] == data[i];
  }

  /** Adding a record appends its key. */
  lemma KeyListSnoc(data: seq<Record>, fields: seq<string>, i: nat)
    requires forall j :: 0 <= j < |data| ==> FieldsOk(data[j], fields)
    requires i < |data|
    ensures KeyList(data[..i + 1], fields) == KeyList(data[..i], fields) + [ComposeKey(data[i], fields)]
  {
    assert data[..i + 1] == data[..i] + [data[i]];
    KeyListAppend(data[..i], data[i], fields);
  }

  lemma KeyListAppend(data: seq<Record>, item: Record, fields: seq<string>)
    requires forall j :: 0 <= j < |data| ==> FieldsOk(data[j], fields)
    requires FieldsOk(item, fields)
    ensures forall j :: 0 <= j < |data + [item]| ==> FieldsOk((data + [item])[j], fields)
    ensures KeyList(data + [item], fields) == KeyList(data, fields) + [ComposeKey(item, fields)]
  {
  }


  /** Adding a record adds its grouping key. */
  lemma KeySetSnoc(data: seq<Record>, rows: seq<string>, columns: seq<string>, i: nat)
    requires Resolvable(data, rows, columns) && i < |data|
    ensures Resolvable(data[..i], rows, columns) && Resolvable(data[..i + 1], rows, columns)
    ensures KeySet(data[..i + 1], rows, columns) == KeySet(data[..i], rows, columns) + {ItemKey(data[i], rows, columns)}
  {
    ResolvablePrefix(data, rows, columns, i);
    ResolvablePrefix(data, rows, columns, i + 1);
    var s1 := KeySet(data[..i + 1], rows, columns);
    var s0 := KeySet(data[..i], rows, columns);
    forall x | x in s1 ensures x in s0 + {ItemKey(data[i], rows, columns)} {
      var j :| 0 <= j < i + 1 && ItemKey(data[..i + 1][j], rows, columns) == x;
      if j < i { assert data[..i + 1][j] == data[..i][j]; }
    }
    forall x | x in s0 ensures x in s1 {
      var j :| 0 <= j < i && ItemKey(data[..i][j], rows, columns) == x;
      assert data[..i + 1][j] == data[..i][j];
    }
    assert data[..i + 1][i] == data[i];
    assert ItemKey(data[..i + 1][i], rows, columns) in s1;
  }

  /** Collecting one more column key into the set keeps first-seen order. */
  lemma DedupSnoc(keys: seq<string>, k: string)
    ensures Dedup(keys + [k]) == if k in Dedup(keys) then Dedup(keys) else Dedup(keys) + [k]
  {
    assert (keys + [k])[..|keys|] == keys;
  }

  /** The group after pushing the record's numbers for the value fields, in
      field order. */
  function Pushed(group: map<string, seq<int>>, item: Record, values: seq<string>): map<string, seq<int>>
  {
    if values == [] then group
    else
      var g := Pushed(group, item, values[..|values| - 1]);
      var val := values[|values| - 1];
      if Get(item, val).Some? && Get(item, val).value.Num? then g[val := SamplesIn(g, val) + [Get(item, val).value.n]]
      else g
  }

  /** Pushing grows each list by the record's contribution to it. */
  lemma {:induction false} PushedSamples(group: map<string, seq<int>>, item: Record, values: seq<string>, w: string)
    ensures SamplesIn(Pushed(group, item, values), w) == SamplesIn(group, w) + Contribution(item, values, w)
    decreases |values|
  {
    if values != [] {
      PushedSamples(group, item, values[..|values| - 1], w);
    }
  }

  /** The `values.forEach` of the grouping loop (src/utils/pivotData.js,
      lines 71-80): the record's number for each value field is pushed onto
      that field's list, once per listing; a value that is not a number
      pushes nothing. */
  method PushSamples(group: map<string, seq<int>>, item: Record, values: seq<string>)
    returns (r: map<string, seq<int>>)
    ensures forall w :: SamplesIn(r, w) == SamplesIn(group, w) + Contribution(item, values, w)
  {
    r := group;
    var k := 0;
    while k < |values|
      invariant 0 <= k <= |values|
      invariant r == Pushed(group, item, values[..k])
    {
      var val := values[k];
      var fieldVal := Get(item, val);
      if fieldVal.Some? && fieldVal.value.Num? {
        r := r[val := SamplesIn(r, val) + [fieldVal.value.n]];
      }
      assert values[..k + 1][..k] == values[..k];
      k := k + 1;
    }
    assert values[..|values|] == values;
    forall w ensures SamplesIn(r, w) == SamplesIn(group, w) + Contribution(item, values, w) {
      PushedSamples(group, item, values, w);
    }
  }

  /** Storing a group whose lists grew by a record's contribution grows the
      lists of that key only. */
  lemma LookupUpdate(m: PivotMap, pk: string, group: map<string, seq<int>>, item: Record, values: seq<string>)
    requires forall w :: SamplesIn(group, w) == Lookup(m, pk, w) + Contribution(item, values, w)
    ensures forall q, w ::
      (Lookup(m[pk := group], q, w) ==
         Lookup(m, q, w) + (if q == pk then Contribution(item, values, w) else []))
  {
  }

  /** The body of `data.forEach` (src/utils/pivotData.js, lines 36-80) for
      one record: its column key joins the column keys if new, its group is
      opened if new, and its numbers are pushed onto the group's lists. */
  method AddRecord(pivotMap: PivotMap, columnKeys: seq<string>, item: Record,
                   rows: seq<string>, columns: seq<string>, values: seq<string>)
    returns (pivotMap': PivotMap, columnKeys': seq<string>)
    requires FieldsOk(item, rows) && FieldsOk(item, columns)
    ensures columnKeys' == if ComposeKey(item, columns) in columnKeys then columnKeys
                           else columnKeys + [ComposeKey(item, columns)]
    ensures pivotMap'.Keys == pivotMap.Keys + {ItemKey(item, rows, columns)}
    ensures forall q, w ::
      (Lookup(pivotMap', q, w) ==
         Lookup(pivotMap, q, w) + (if q == ItemKey(item, rows, columns) then Contribution(item, values, w) else []))
  {
    var rowKey := ComposeKey(item, rows);
    var colKey := ComposeKey(item, columns);
    columnKeys' := columnKeys;
    if colKey !in columnKeys' {
      columnKeys' := columnKeys' + [colKey];
    }
    var pk := PivotKey(rowKey, colKey);
    var group: map<string, seq<int>> := if pk in pivotMap then pivotMap[pk] else map[];
    group := PushSamples(group, item, values);
    pivotMap' := pivotMap[pk := group];
    LookupUpdate(pivotMap, pk, group, item, values);
  }

  /** The grouping loop (src/utils/pivotData.js, lines 36-81): every record
      opens its group, even without a numeric value; the samples of each group
      are those of `Samples`; and the column keys are collected distinct, in
      first-seen order. */
  method Group(data: seq<Record>, rows: seq<string>, columns: seq<string>, values: seq<string>)
    returns (pivotMap: PivotMap, columnKeys: seq<string>)
    requires Resolvable(data, rows, columns)
    ensures columnKeys == Dedup(KeyList(data, columns))
    ensures pivotMap.Keys == KeySet(data, rows, columns)
    ensures forall pk, v :: Lookup(pivotMap, pk, v) == Samples(data, rows, columns, values, pk, v)
  {
    pivotMap := map[];
    columnKeys := [];
    var i := 0;
    assert data[..0] == [];
    while i < |data|
      invariant 0 <= i <= |data|
      invariant Resolvable(data[..i], rows, columns)
      invariant columnKeys == Dedup(KeyList(data[..i], columns))
      invariant pivotMap.Keys == KeySet(data[..i], rows, columns)
      invariant forall pk, v :: Lookup(pivotMap, pk, v) == Samples(data[..i], rows, columns, values, pk, v)
    {
      ghost var before := pivotMap;
      pivotMap, columnKeys := AddRecord(pivotMap, columnKeys, data[i], rows, columns, values);
      GroupStep(data, rows, columns, values, i, before, pivotMap);
      KeyListSnoc(data, columns, i);
      DedupSnoc(KeyList(data[..i], columns), ComposeKey(data[i], columns));
      i := i + 1;
    }
    assert data[..|data|] == data;
  }

  /** The grouping invariant survives one more record. */
  lemma GroupStep(data: seq<Record>, rows: seq<string>, columns: seq<string>, values: seq<string>, i: nat,
                  before: PivotMap, after: PivotMap)
    requires Resolvable(data, rows, columns) && i < |data|
    requires Resolvable(data[..i], rows, columns)
    requires before.Keys == KeySet(data[..i], rows, columns)
    requires forall pk, v :: Lookup(before, pk, v) == Samples(data[..i], rows, columns, values, pk, v)
    requires after.Keys == before.Keys + {ItemKey(data[i], rows, columns)}
    requires forall q, w ::
      (Lookup(after, q, w) ==
         Lookup(before, q, w) + (if q == ItemKey(data[i], rows, columns) then Contribution(data[i], values, w) else []))
    ensures Resolvable(data[..i + 1], rows, columns)
    ensures after.Keys == KeySet(data[..i + 1], rows, columns)
    ensures forall pk, v :: Lookup(after, pk, v) == Samples(data[..i + 1], rows, columns, values, pk, v)
  {
    KeySetSnoc(data, rows, columns, i);
    SamplesSnoc(data, rows, columns, values, i);
  }

  /** One aggregated cell: an entry for every value field. */
  type Cell = map<string, real>

  /** `Number(cell[val] || 0)`. */
  function CellValue(cell: Cell, v: string): real
  {
    if v in cell then cell[v] else 0.0
  }

  /** The sum over the value fields (each listing counted) of one cell. */
  function CellSum(cell: Cell, values: seq<string>): real
  {
    if values == [] then 0.0 else CellSum(cell, values[..|values| - 1]) + CellValue(cell, values[|values| - 1])
  }

  /** The sum over all cells of a row and all value fields. */
  function RowSum(row: seq<Cell>, values: seq<string>): real
  {
    if row == [] then 0.0 else RowSum(row[..|row| - 1], values) + CellSum(row[|row| - 1], values)
  }

  /** `rowTotals` (src/utils/pivotData.js, lines 136-141): each row's total
      is the sum of all its cells over all value fields, kept when whole and
      rounded to hundredths otherwise. */
  function RowTotals(matrix: seq<seq<Cell>>, values: seq<string>): (r: seq<real>)
    ensures |r| == |matrix|
    ensures forall i :: 0 <= i < |matrix| && IsInteger(RowSum(matrix[i], values)) ==> r[i] == RowSum(matrix[i], values)
    ensures forall i :: 0 <= i < |matrix| ==> -0.005 <= r[i] - RowSum(matrix[i], values) <= 0.005
  {
    seq(|matrix|, i requires 0 <= i < |matrix| => FixIfFractional(RowSum(matrix[i], values)))
  }

  /** Every row of the matrix has `width` cells. */
  predicate Dense(matrix: seq<seq<Cell>>, width: nat)
  {
    forall i :: 0 <= i < |matrix| ==> |matrix[i]| == width
  }

  /** `pivotMatrix.map(row => Number(row[colIdx][val] || 0))`. */
  function ColumnOf(matrix: seq<seq<Cell>>, c: nat, v: string): (r: seq<real>)
    requires forall i :: 0 <= i < |matrix| ==> c < |matrix[i]|
    ensures |r| == |matrix|
    ensures forall i :: 0 <= i < |matrix| ==> r[i] == CellValue(matrix[i][c], v)
  {
    seq(|matrix|, i requires 0 <= i < |matrix| => CellValue(matrix[i][c], v))
  }

  /** The totals of column `c`, filled in one value field at a time: an
      entry for every value field, holding that field's column total. */
  function ColumnTotalsOf(matrix: seq<seq<Cell>>, c: nat, values: seq<string>, aggregations: map<string, string>)
    : (t: map<string, Option<real>>)
    requires forall i :: 0 <= i < |matrix| ==> c < |matrix[i]|
    ensures t.Keys == set v | v in values
    ensures forall v :: v in values ==> t[v] == ColumnTotal(AggregationOf(aggregations, v), ColumnOf(matrix, c, v))
  {
    if values == [] then map[]
    else
      var v := values[|values| - 1];
      var t := ColumnTotalsOf(matrix, c, values[..|values| - 1], aggregations);
      assert forall w :: w in values <==> w in values[..|values| - 1] || w == v;
      t[v := ColumnTotal(AggregationOf(aggregations, v), ColumnOf(matrix, c, v))]
  }

  /** The `totals` object of one column (src/utils/pivotData.js, lines
      144-176), filled in one value field at a time. */
  method ColumnTotalsAt(matrix: seq<seq<Cell>>, c: nat, values: seq<string>, aggregations: map<string, string>)
    returns (t: map<string, Option<real>>)
    requires forall i :: 0 <= i < |matrix| ==> c < |matrix[i]|
    ensures t == ColumnTotalsOf(matrix, c, values, aggregations)
  {
    t := map[];
    for k := 0 to |values|
      invariant t == ColumnTotalsOf(matrix, c, values[..k], aggregations)
    {
      var val := values[k];
      var kind := AggregationOf(aggregations, val);
      var nums := ColumnOf(matrix, c, val);
      assert values[..k + 1][..k] == values[..k] && values[..k + 1][k] == val;
      assert ColumnTotalsOf(matrix, c, values[..k + 1], aggregations)
          == ColumnTotalsOf(matrix, c, values[..k], aggregations)[val := ColumnTotal(kind, nums)];
      t := t[val := ColumnTotal(kind, nums)];
    }
    assert values[..|values|] == values;
  }

  /** `columnTotals` (src/utils/pivotData.js, lines 143-178): one `totals`
      object per column. */
  method ColumnTotals(matrix: seq<seq<Cell>>, width: nat, values: seq<string>, aggregations: map<string, string>)
    returns (totals: seq<map<string, Option<real>>>)
    requires Dense(matrix, width)
    ensures totals == AllColumnTotals(matrix, width, values, aggregations)
  {
    ghost var spec := AllColumnTotals(matrix, width, values, aggregations);
    totals := [];
    for c := 0 to width
      invariant totals == spec[..c]
    {
      var t := ColumnTotalsAt(matrix, c, values, aggregations);
      assert spec[..c + 1] == spec[..c] + [t];
      totals := totals + [t];
    }
    assert spec[..width] == spec;
  }

  /** The totals of every column of a matrix `width` cells wide. */
  function AllColumnTotals(matrix: seq<seq<Cell>>, width: nat, values: seq<string>, aggregations: map<string, string>)
    : (r: seq<map<string, Option<real>>>)
    requires Dense(matrix, width)
    ensures |r| == width
    ensures forall c :: 0 <= c < width ==> r[c] == ColumnTotalsOf(matrix, c, values, aggregations)
  {
    seq(width, c requires 0 <= c < width => ColumnTotalsOf(matrix, c, values, aggregations))
  }

  /** What `generatePivotData` returns. */
  datatype PivotResult = PivotResult(
    pivotRows: seq<string>,
    pivotColumns: seq<string>,
    pivotMatrix: seq<seq<Cell>>,
    rowTotals: seq<real>,
    columnTotals: seq<map<string, Option<real>>>)

  /** The cell of the pair (`rowKey`, `colKey`), from the samples of the records. */
  function SpecCell(data: seq<Record>, rows: seq<string>, columns: seq<string>, values: seq<string>,
                    aggregations: map<string, string>, rowKey: string, colKey: string): (c: Cell)
    requires Resolvable(data, rows, columns)
    ensures c.Keys == set v | v in values
  {
    map v | v in values ::
      Aggregate(AggregationOf(aggregations, v), Samples(data, rows, columns, values, PivotKey(rowKey, colKey), v))
  }

  /** The cell of the pair (`rowKey`, `colKey`), from the grouping map
      (src/utils/pivotData.js, lines 103-131). */
  function MapCell(pivotMap: PivotMap, values: seq<string>, aggregations: map<string, string>,
                   rowKey: string, colKey: string): (c: Cell)
    ensures c.Keys == set v | v in values
  {
    map v | v in values ::
      Aggregate(AggregationOf(aggregations, v), Lookup(pivotMap, PivotKey(rowKey, colKey), v))
  }

  /** The matrix of cells for the given row and column keys. */
  function Matrix(data: seq<Record>, rows: seq<string>, columns: seq<string>, values: seq<string>,
                  aggregations: map<string, string>, pivotRows: seq<string>, pivotColumns: seq<string>)
    : (m: seq<seq<Cell>>)
    requires Resolvable(data, rows, columns)
    ensures |m| == |pivotRows| && Dense(m, |pivotColumns|)
    ensures forall i, j :: 0 <= i < |pivotRows| && 0 <= j < |pivotColumns| ==>
      m[i][j] == SpecCell(data, rows, columns, values, aggregations, pivotRows[i], pivotColumns[j])
  {
    seq(|pivotRows|, i requires 0 <= i < |pivotRows| =>
      seq(|pivotColumns|, j requires 0 <= j < |pivotColumns| =>
        SpecCell(data, rows, columns, values, aggregations, pivotRows[i], pivotColumns[j])))
  }

  /** `pivotMatrix` (src/utils/pivotData.js, lines 101-133), read from the grouping map. */
  function MapMatrix(pivotMap: PivotMap, values: seq<string>, aggregations: map<string, string>,
                     pivotRows: seq<string>, pivotColumns: seq<string>): (m: seq<seq<Cell>>)
    ensures |m| == |pivotRows| && Dense(m, |pivotColumns|)
    ensures forall i, j :: 0 <= i < |pivotRows| && 0 <= j < |pivotColumns| ==>
      m[i][j] == MapCell(pivotMap, values, aggregations, pivotRows[i], pivotColumns[j])
  {
    seq(|pivotRows|, i requires 0 <= i < |pivotRows| =>
      seq(|pivotColumns|, j requires 0 <= j < |pivotColumns| =>
        MapCell(pivotMap, values, aggregations, pivotRows[i], pivotColumns[j])))
  }

  /** A grouping map holding the samples of the records yields the matrix of
      the records. */
  lemma MapMatrixIsMatrix(pivotMap: PivotMap, data: seq<Record>, rows: seq<string>, columns: seq<string>,
                          values: seq<string>, aggregations: map<string, string>,
                          pivotRows: seq<string>, pivotColumns: seq<string>)
    requires Resolvable(data, rows, columns)
    requires forall pk, v :: Lookup(pivotMap, pk, v) == Samples(data, rows, columns, values, pk, v)
    ensures MapMatrix(pivotMap, values, aggregations, pivotRows, pivotColumns)
      == Matrix(data, rows, columns, values, aggregations, pivotRows, pivotColumns)
  {
    var a := MapMatrix(pivotMap, values, aggregations, pivotRows, pivotColumns);
    var b := Matrix(data, rows, columns, values, aggregations, pivotRows, pivotColumns);
    forall i | 0 <= i < |pivotRows| ensures a[i] == b[i] {
      forall j | 0 <= j < |pivotColumns| ensures a[i][j] == b[i][j] {
        assert MapCell(pivotMap, values, aggregations, pivotRows[i], pivotColumns[j])
          == SpecCell(data, rows, columns, values, aggregations, pivotRows[i], pivotColumns[j]);
      }
    }
  }

  /** The result of `generatePivotData`, stated over the records. */
  function PivotSpec(data: seq<Record>, rows: seq<string>, columns: seq<string>, values: seq<string>,
                     aggregations: map<string, string>): (p: PivotResult)
    requires Resolvable(data, rows, columns)
    ensures |data| == 0 || (|rows| == 0 && |columns| == 0) ==> p == PivotResult([], [], [], [], [])
    ensures |data| > 0 && (|rows| > 0 || |columns| > 0) ==>
      StrictlySorted(p.pivotRows) && StrictlySorted(p.pivotColumns)
      && (forall key :: key in p.pivotRows <==> exists i :: 0 <= i < |data| && ComposeKey(data[i], rows) == key)
      && (forall key :: key in p.pivotColumns <==> exists i :: 0 <= i < |data| && ComposeKey(data[i], columns) == key)
    ensures |p.pivotMatrix| == |p.pivotRows| && Dense(p.pivotMatrix, |p.pivotColumns|)
    ensures forall i, j :: 0 <= i < |p.pivotRows| && 0 <= j < |p.pivotColumns| ==>
      p.pivotMatrix[i][j] == SpecCell(data, rows, columns, values, aggregations, p.pivotRows[i], p.pivotColumns[j])
    ensures |p.rowTotals| == |p.pivotRows| && |p.columnTotals| == |p.pivotColumns|
  {
    if |data| == 0 || (|rows| == 0 && |columns| == 0) then PivotResult([], [], [], [], [])
    else
      var pivotRows := SortedKeys(KeyList(data, rows));
      var pivotColumns := SortedKeys(KeyList(data, columns));
      KeyListMembers(data, rows);
      KeyListMembers(data, columns);
      var matrix := Matrix(data, rows, columns, values, aggregations, pivotRows, pivotColumns);
      PivotResult(pivotRows, pivotColumns, matrix, RowTotals(matrix, values),
        AllColumnTotals(matrix, |pivotColumns|, values, aggregations))
  }

  /** `generatePivotData({ data, rows, columns, values, aggregations })`. */
  method GeneratePivotData(data: seq<Record>, rows: seq<string>, columns: seq<string>, values: seq<string>,
                           aggregations: map<string, string>)
    returns (result: PivotResult)
    requires Resolvable(data, rows, columns)
    ensures result == PivotSpec(data, rows, columns, values, aggregations)
  {
    if |data| == 0 || (|rows| == 0 && |columns| == 0) {
      return PivotResult([], [], [], [], []);
    }
    var pivotMap, columnKeys := Group(data, rows, columns, values);
    var pivotRows := SortedKeys(KeyList(data, rows));
    var pivotColumns := Sort(columnKeys);
    var matrix := MapMatrix(pivotMap, values, aggregations, pivotRows, pivotColumns);
    assert matrix == Matrix(data, rows, columns, values, aggregations, pivotRows, pivotColumns) by {
      MapMatrixIsMatrix(pivotMap, data, rows, columns, values, aggregations, pivotRows, pivotColumns);
    }
    var rowTotals := RowTotals(matrix, values);
    var columnTotals := ColumnTotals(matrix, |pivotColumns|, values, aggregations);
    result := PivotResult(pivotRows, pivotColumns, matrix, rowTotals, columnTotals);
  }

  /** Every record's group has a cell: its row key is a row of the table and
      its column key a column. */
  lemma RecordHasCell(data: seq<Record>, rows: seq<string>, columns: seq<string>, values: seq<string>,
                      aggregations: map<string, string>, k: nat)
    requires Resolvable(data, rows, columns) && k < |data| && (|rows| > 0 || |columns| > 0)
    ensures var p := PivotSpec(data, rows, columns, values, aggregations);
      exists i, j :: 0 <= i < |p.pivotRows| && 0 <= j < |p.pivotColumns| &&
        PivotKey(p.pivotRows[i], p.pivotColumns[j]) == ItemKey(data[k], rows, columns)
  {
    var p := PivotSpec(data, rows, columns, values, aggregations);
    assert ComposeKey(data[k], rows) in p.pivotRows;
    assert ComposeKey(data[k], columns) in p.pivotColumns;
    var i :| 0 <= i < |p.pivotRows| && p.pivotRows[i] == ComposeKey(data[k], rows);
    var j :| 0 <= j < |p.pivotColumns| && p.pivotColumns[j] == ComposeKey(data[k], columns);
    assert PivotKey(p.pivotRows[i], p.pivotColumns[j]) == ItemKey(data[k], rows, columns);
  }
}

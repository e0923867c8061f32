/** The field selector of the pivot table (src/components/FieldSelector.jsx):
    which fields are dates, the derived date-hierarchy names offered for
    them, the handlers that move a field between the row, column and value
    lists, and the list of fields still available. */
module FieldSelection {
  import opened Strings
  import opened Ordering
  import opened Dates
  import opened Keys

  /** `s.filter(keep)`: the elements of `s` that `keep` accepts, in order. */
  function Filter(s: seq<string>, keep: string -> bool): (r: seq<string>)
    ensures |r| <= |s|
    ensures forall x :: x in r <==> x in s && keep(x)
  {
    if s == [] then []
    else Filter(s[..|s| - 1], keep) + (if keep(s[|s| - 1]) then [s[|s| - 1]] else [])
  }

  /** Filtering keeps a list whose every element is accepted. */
  lemma {:induction false} FilterAll(s: seq<string>, keep: string -> bool)
    requires forall x :: x in s ==> keep(x)
    ensures Filter(s, keep) == s
    decreases |s|
  {
    if s != [] {
      FilterAll(s[..|s| - 1], keep);
    }
  }

  lemma {:induction false} FilterAppend(a: seq<string>, b: seq<string>, keep: string -> bool)
    ensures Filter(a + b, keep) == Filter(a, keep) + Filter(b, keep)
    decreases |b|
  {
    if b == [] {
      assert a + b == a;
    } else {
      var init := b[..|b| - 1];
      var x := b[|b| - 1];
      var t := if keep(x) then [x] else [];
      calc {
        Filter(a + b, keep);
        { assert a + b == (a + init) + [x]; }
        Filter((a + init) + [x], keep);
        { FilterSnoc(a + init, x, keep); }
        Filter(a + init, keep) + t;
        { FilterAppend(a, init, keep); }
        (Filter(a, keep) + Filter(init, keep)) + t;
        Filter(a, keep) + (Filter(init, keep) + t);
        { FilterSnoc(init, x, keep); assert b == init + [x]; }
        Filter(a, keep) + Filter(b, keep);
      }
    }
  }

  /** Filtering a list with one more element at the end. */
  lemma FilterSnoc(s: seq<string>, x: string, keep: string -> bool)
    ensures Filter(s + [x], keep) == Filter(s, keep) + (if keep(x) then [x] else [])
  {
    assert (s + [x])[..|s|] == s;
  }

  /** Filtering with a finer test after a coarser one is filtering with the finer one. */
  lemma {:induction false} FilterFilter(s: seq<string>, p: string -> bool, q: string -> bool)
    requires forall x :: q(x) ==> p(x)
    ensures Filter(Filter(s, p), q) == Filter(s, q)
    decreases |s|
  {
    if s != [] {
      var init := s[..|s| - 1];
      var x := s[|s| - 1];
      FilterFilter(init, p, q);
      FilterAppend(Filter(init, p), if p(x) then [x] else [], q);
    }
  }

  /** Filtering keeps a list free of repeats. */
  lemma {:induction false} FilterDistinct(s: seq<string>, keep: string -> bool)
    requires Distinct(s)
    ensures Distinct(Filter(s, keep))
    decreases |s|
  {
    if s != [] {
      var init := s[..|s| - 1];
      var x := s[|s| - 1];
      assert Distinct(init);
      FilterDistinct(init, keep);
      if keep(x) {
        assert x !in init;
        SnocDistinct(Filter(init, keep), x);
      }
    }
  }

  lemma SnocDistinct(s: seq<string>, x: string)
    requires Distinct(s) && x !in s
    ensures Distinct(s + [x])
  {
    var r := s + [x];
    forall i, j | 0 <= i < j < |r| ensures r[i] != r[j] {
      if j == |s| {
        assert r[i] in s;
      }
    }
  }

  /** `s.filter((f) => f !== field)`. */
  function Without(s: seq<string>, field: string): seq<string>
  {
    Filter(s, x => x != field)
  }

  /** Removing a field that is not listed changes nothing. */
  lemma WithoutAbsent(s: seq<string>, field: string)
    requires field !in s
    ensures Without(s, field) == s
  {
    FilterAll(s, x => x != field);
  }

  /** A field is a date column when its lower-cased name contains `" on"`,
      `"date"` or `"dob"` (src/components/FieldSelector.jsx, lines 113-117). */
  predicate IsDateField(field: string)
  {
    var lower := ToLower(field);
    Includes(lower, " on") || Includes(lower, "date") || Includes(lower, "dob")
  }

  /** The detection works on names only, case-insensitively: "Created On"
      and "DOB" are dates, and so is "Update", which merely contains "date". */
  lemma DateFieldExamples()
    ensures IsDateField("Created On") && IsDateField("DOB") && IsDateField("Update")
  {
    assert ToLower("Created On") == "created on";
    assert OccursAt("created on", " on", 7);
    assert ToLower("DOB") == "dob";
    assert OccursAt("dob", "dob", 0);
    assert ToLower("Update") == "update";
    assert OccursAt("update", "date", 2);
  }

  /** A name without any of the three markers, such as "Amount", is not a date. */
  lemma NotDateFieldExample()
    ensures !IsDateField("Amount")
  {
    var lower := ToLower("Amount");
    assert lower == "amount";
    forall i: nat ensures !OccursAt(lower, " on", i) && !OccursAt(lower, "date", i) && !OccursAt(lower, "dob", i) {
      if i + 3 <= |lower| {
        assert lower[i..i + 3][0] == lower[i];
      }
    }
  }

  /** The date columns among the fields, in order. */
  function DateColumns(fields: seq<string>): (r: seq<string>)
    ensures forall f :: f in r <==> f in fields && IsDateField(f)
  {
    Filter(fields, IsDateField)
  }

  /** The three hierarchy names of each date column, column by column
      (src/components/FieldSelector.jsx, lines 119-123). */
  function HierarchyNames(dateCols: seq<string>): (r: seq<string>)
    ensures |r| == 3 * |dateCols|
    ensures forall i :: 0 <= i < |dateCols| ==>
      r[3 * i] == dateCols[i] + Suffix(Year) && r[3 * i + 1] == dateCols[i] + Suffix(Quarter)
      && r[3 * i + 2] == dateCols[i] + Suffix(Month)
  {
    if dateCols == [] then []
    else
      var d := dateCols[|dateCols| - 1];
      HierarchyNames(dateCols[..|dateCols| - 1]) + [d + Suffix(Year), d + Suffix(Quarter), d + Suffix(Month)]
  }

  /** Every hierarchy name offered is one the pivot computation resolves as
      that level of its date column, when the column's name holds none of
      the three level suffixes (a name such as "Order_Date" qualifies). */
  lemma HierarchyNamesResolve(dateCols: seq<string>)
    requires forall i :: 0 <= i < |dateCols| ==> NoLevelSuffix(dateCols[i])
    ensures var r := HierarchyNames(dateCols);
      forall i :: 0 <= i < |dateCols| ==>
        Classify(r[3 * i]) == Derived(dateCols[i], Year) && Classify(r[3 * i + 1]) == Derived(dateCols[i], Quarter)
        && Classify(r[3 * i + 2]) == Derived(dateCols[i], Month)
  {
    forall i | 0 <= i < |dateCols| ensures
      Classify(dateCols[i] + Suffix(Year)) == Derived(dateCols[i], Year) &&
      Classify(dateCols[i] + Suffix(Quarter)) == Derived(dateCols[i], Quarter) &&
      Classify(dateCols[i] + Suffix(Month)) == Derived(dateCols[i], Month)
    {
      HierarchyNameClassified(dateCols[i], Year);
      HierarchyNameClassified(dateCols[i], Quarter);
      HierarchyNameClassified(dateCols[i], Month);
    }
  }

  /** A date column whose own name holds the year suffix is misread: every
      hierarchy name offered for it resolves as the year level of a column
      that is its name with that suffix cut out, level suffix included. */
  lemma YearInNameMisresolved(pre: string, rest: string, level: Level)
    requires '_' !in pre
    ensures Classify(pre + Suffix(Year) + rest + Suffix(level)) == Derived(pre + rest + Suffix(level), Year)
  {
    FirstOccurrence(pre, Suffix(Year), rest + Suffix(level));
    assert pre + Suffix(Year) + rest + Suffix(level) == pre + Suffix(Year) + (rest + Suffix(level));
  }

  /** "Fiscal_Year_Date" is detected as a date column, and the month name
      offered for it resolves as the year level of a column
      "Fiscal_Date_Month", which does not exist. */
  lemma HierarchyNameMisresolved()
    ensures var column := "Fiscal" + Suffix(Year) + "_Date";
      IsDateField(column) && HierarchyNames([column])[2] == column + Suffix(Month)
      && Classify(column + Suffix(Month)) == Derived("Fiscal" + "_Date" + Suffix(Month), Year)
  {
    var column := "Fiscal" + Suffix(Year) + "_Date";
    assert IsDateField(column) by {
      var lower := ToLower(column);
      assert lower[12..16] == "date";
      assert OccursAt(lower, "date", 12);
    }
    assert '_' !in "Fiscal";
    YearInNameMisresolved("Fiscal", "_Date", Month);
  }

  /** A pattern starting with `'_'` placed after a text without `'_'` is
      first found right there, and replacing it removes exactly it. */
  lemma FirstOccurrence(pre: string, pat: string, rest: string)
    requires '_' !in pre && |pat| > 0 && pat[0] == '_'
    ensures IndexOf(pre + pat + rest, pat, 0).Some? && IndexOf(pre + pat + rest, pat, 0).value == |pre|
    ensures ReplaceFirst(pre + pat + rest, pat, "") == pre + rest
  {
    var s := pre + pat + rest;
    assert s[|pre|..|pre| + |pat|] == pat;
    assert OccursAt(s, pat, |pre|);
    forall j: nat | j < |pre| ensures !OccursAt(s, pat, j) {
      if j + |pat| <= |s| {
        assert s[j..j + |pat|][0] == pre[j] && pre[j] in pre;
      }
    }
    assert s[..|pre|] + "" + s[|pre| + |pat|..] == pre + rest;
  }

  /** The row, column and value fields and the aggregation chosen per value field. */
  datatype Assignment = Assignment(rows: seq<string>, columns: seq<string>, values: seq<string>,
                                   aggregations: map<string, string>)

  /** Where `handleDrop` leaves the lists (src/components/FieldSelector.jsx,
      lines 129-153): the field leaves every list, loses its aggregation if it
      was a value field, and joins the end of the target list. */
  function Drop(a: Assignment, field: string, targetType: string): Assignment
  {
    var rows := Without(a.rows, field);
    var columns := Without(a.columns, field);
    var values := Without(a.values, field);
    Assignment(
      if targetType == "rows" then rows + [field] else rows,
      if targetType == "columns" then columns + [field] else columns,
      if targetType == "values" then values + [field] else values,
      if field in a.values then a.aggregations - {field} else a.aggregations)
  }

  /** Where `handleRemove` leaves the lists (src/components/FieldSelector.jsx,
      lines 156-165): the field leaves every list and loses its aggregation
      only if it was a value field. */
  function Remove(a: Assignment, field: string): Assignment
  {
    Assignment(Without(a.rows, field), Without(a.columns, field), Without(a.values, field),
      if field in a.values then a.aggregations - {field} else a.aggregations)
  }

  /** No list repeats a field and no field is in two lists. */
  predicate Placed(a: Assignment)
  {
    Distinct(a.rows) && Distinct(a.columns) && Distinct(a.values) &&
    (forall f :: f in a.rows ==> f !in a.columns && f !in a.values) &&
    (forall f :: f in a.columns ==> f !in a.values)
  }

  /** Aggregations are chosen for value fields only, as the selector of a
      value field sets them (src/components/FieldSelector.jsx, line 31). */
  predicate Tracked(a: Assignment)
  {
    forall f :: f in a.aggregations ==> f in a.values
  }

  /** Without a field, it is not listed. */
  lemma WithoutGone(s: seq<string>, field: string)
    ensures field !in Without(s, field)
  {
    var keep := x => x != field;
    assert !keep(field);
  }

  /** Appended after its removal, a field is listed exactly once, last. */
  lemma AppendedOnce(s: seq<string>, field: string)
    ensures var r := Without(s, field) + [field];
      r[|r| - 1] == field && multiset(r)[field] == 1
  {
    var w := Without(s, field);
    WithoutGone(s, field);
    assert multiset(w)[field] == 0;
    assert multiset(w + [field]) == multiset(w) + multiset{field};
  }

  /** After a drop on the row, column or value list the field is listed there
      exactly once, last, and nowhere else; after a drop anywhere else it is
      in no list. */
  lemma DropPlaces(a: Assignment, field: string, targetType: string)
    ensures var d := Drop(a, field, targetType);
      (targetType == "rows" ==> d.rows != [] && d.rows[|d.rows| - 1] == field && multiset(d.rows)[field] == 1) &&
      (targetType == "columns" ==> d.columns != [] && d.columns[|d.columns| - 1] == field && multiset(d.columns)[field] == 1) &&
      (targetType == "values" ==> d.values != [] && d.values[|d.values| - 1] == field && multiset(d.values)[field] == 1) &&
      (targetType != "rows" ==> field !in d.rows) &&
      (targetType != "columns" ==> field !in d.columns) &&
      (targetType != "values" ==> field !in d.values)
  {
    WithoutGone(a.rows, field);
    WithoutGone(a.columns, field);
    WithoutGone(a.values, field);
    AppendedOnce(a.rows, field);
    AppendedOnce(a.columns, field);
    AppendedOnce(a.values, field);
  }

  /** Restricted to fields other than `field`, a list is the same after
      `field` is removed from it, and perhaps appended to it. */
  lemma WithoutKeepsOrder(s: seq<string>, field: string, appended: bool, keep: string -> bool)
    requires !keep(field)
    ensures Filter(if appended then Without(s, field) + [field] else Without(s, field), keep) == Filter(s, keep)
  {
    FilterFilter(s, x => x != field, keep);
    if appended {
      FilterAppend(Without(s, field), [field], keep);
    }
  }

  /** A drop keeps the relative order of every other field in every list:
      restricted to fields other than the one dropped, each list is unchanged. */
  lemma DropKeepsOrder(a: Assignment, field: string, targetType: string, keep: string -> bool)
    requires !keep(field)
    ensures var d := Drop(a, field, targetType);
      Filter(d.rows, keep) == Filter(a.rows, keep) && Filter(d.columns, keep) == Filter(a.columns, keep)
      && Filter(d.values, keep) == Filter(a.values, keep)
  {
    WithoutKeepsOrder(a.rows, field, targetType == "rows", keep);
    WithoutKeepsOrder(a.columns, field, targetType == "columns", keep);
    WithoutKeepsOrder(a.values, field, targetType == "values", keep);
  }

  /** A drop deletes the aggregation of the field when it was a value field,
      also when it is dropped back on the values, and touches no other. */
  lemma DropAggregations(a: Assignment, field: string, targetType: string)
    ensures var d := Drop(a, field, targetType);
      (field in a.values ==> field !in d.aggregations) &&
      (field !in a.values ==> d.aggregations == a.aggregations) &&
      (forall f :: f != field ==> (f in d.aggregations <==> f in a.aggregations)) &&
      (forall f :: f != field && f in d.aggregations ==> d.aggregations[f] == a.aggregations[f])
  {
  }

  /** A drop keeps the lists free of repeats and pairwise disjoint. */
  lemma DropKeepsPlaced(a: Assignment, field: string, targetType: string)
    requires Placed(a)
    ensures Placed(Drop(a, field, targetType))
  {
    var rows := Without(a.rows, field);
    var columns := Without(a.columns, field);
    var values := Without(a.values, field);
    FilterDistinct(a.rows, x => x != field);
    FilterDistinct(a.columns, x => x != field);
    FilterDistinct(a.values, x => x != field);
    SnocDistinct(rows, field);
    SnocDistinct(columns, field);
    SnocDistinct(values, field);
  }

  /** A drop keeps aggregations for value fields only. */
  lemma DropKeepsTracked(a: Assignment, field: string, targetType: string)
    requires Tracked(a)
    ensures Tracked(Drop(a, field, targetType))
  {
  }

  /** Dropping the same field on the same target twice is dropping it once,
      when aggregations are kept for value fields only. */
  lemma DropTwice(a: Assignment, field: string, targetType: string)
    requires Tracked(a)
    ensures Drop(Drop(a, field, targetType), field, targetType) == Drop(a, field, targetType)
  {
    WithoutTwice(a.rows, field, targetType == "rows");
    WithoutTwice(a.columns, field, targetType == "columns");
    WithoutTwice(a.values, field, targetType == "values");
  }

  /** Removing a field from a list it was removed from, and perhaps appended to, leaves the list it was removed from. */
  lemma WithoutTwice(s: seq<string>, field: string, appended: bool)
    ensures Without(if appended then Without(s, field) + [field] else Without(s, field), field) == Without(s, field)
  {
    var w := Without(s, field);
    WithoutAbsent(w, field);
    if appended {
      FilterAppend(w, [field], x => x != field);
    }
  }

  /** After `handleRemove` the field is in no list, has lost its aggregation
      if it was a value field, and every other field keeps its place, order
      and aggregation. */
  lemma RemoveClears(a: Assignment, field: string, keep: string -> bool)
    requires !keep(field)
    ensures var d := Remove(a, field);
      field !in d.rows && field !in d.columns && field !in d.values &&
      (field in a.values ==> field !in d.aggregations) &&
      (field !in a.values ==> d.aggregations == a.aggregations) &&
      (forall f :: f != field ==>
        (f in d.rows <==> f in a.rows) && (f in d.columns <==> f in a.columns) && (f in d.values <==> f in a.values)) &&
      (forall f :: f != field ==> (f in d.aggregations <==> f in a.aggregations)) &&
      (forall f :: f != field && f in d.aggregations ==> d.aggregations[f] == a.aggregations[f]) &&
      Filter(d.rows, keep) == Filter(a.rows, keep) && Filter(d.columns, keep) == Filter(a.columns, keep)
      && Filter(d.values, keep) == Filter(a.values, keep)
  {
    WithoutGone(a.rows, field);
    WithoutGone(a.columns, field);
    WithoutGone(a.values, field);
    WithoutKeepsOrder(a.rows, field, false, keep);
    WithoutKeepsOrder(a.columns, field, false, keep);
    WithoutKeepsOrder(a.values, field, false, keep);
  }

  /** `handleRemove` keeps the lists free of repeats and pairwise disjoint,
      and aggregations for value fields only. */
  lemma RemoveKeepsInvariants(a: Assignment, field: string)
    ensures Placed(a) ==> Placed(Remove(a, field))
    ensures Tracked(a) ==> Tracked(Remove(a, field))
  {
    if Placed(a) {
      FilterDistinct(a.rows, x => x != field);
      FilterDistinct(a.columns, x => x != field);
      FilterDistinct(a.values, x => x != field);
    }
  }

  /** Removing a field after dropping it anywhere is removing it outright,
      when aggregations are kept for value fields only. */
  lemma DropThenRemove(a: Assignment, field: string, targetType: string)
    requires Tracked(a)
    ensures Remove(Drop(a, field, targetType), field) == Remove(a, field)
  {
    WithoutTwice(a.rows, field, targetType == "rows");
    WithoutTwice(a.columns, field, targetType == "columns");
    WithoutTwice(a.values, field, targetType == "values");
  }

  /** Removing a field that is in no list changes nothing. */
  lemma RemoveAbsent(a: Assignment, field: string)
    requires field !in a.rows && field !in a.columns && field !in a.values
    ensures Remove(a, field) == a
  {
    WithoutAbsent(a.rows, field);
    WithoutAbsent(a.columns, field);
    WithoutAbsent(a.values, field);
  }

  /** `allAvailableFields` (src/components/FieldSelector.jsx, lines 175-178):
      the unassigned plain fields, then the unassigned hierarchy fields. */
  function AvailableFields(fields: seq<string>, hierarchy: seq<string>, a: Assignment): seq<string>
  {
    var unassigned := x => x !in a.rows && x !in a.columns && x !in a.values;
    Filter(fields, unassigned) + Filter(hierarchy, unassigned)
  }

  /** A field is available exactly when it is a plain or hierarchy field in
      none of the three lists. */
  lemma AvailableMembers(fields: seq<string>, hierarchy: seq<string>, a: Assignment, x: string)
    ensures x in AvailableFields(fields, hierarchy, a) <==>
      (x in fields || x in hierarchy) && x !in a.rows && x !in a.columns && x !in a.values
  {
  }

  /** Dropping a field on a list takes it off the available list; dropping it
      anywhere else puts a known field back on it. */
  lemma DropAvailability(fields: seq<string>, hierarchy: seq<string>, a: Assignment, field: string, targetType: string)
    ensures var d := Drop(a, field, targetType);
      (targetType in {"rows", "columns", "values"} ==> field !in AvailableFields(fields, hierarchy, d)) &&
      (targetType !in {"rows", "columns", "values"} && (field in fields || field in hierarchy) ==>
        field in AvailableFields(fields, hierarchy, d))
  {
    var d := Drop(a, field, targetType);
    DropPlaces(a, field, targetType);
    AvailableMembers(fields, hierarchy, d, field);
    if targetType == "rows" {
      assert field in d.rows;
    } else if targetType == "columns" {
      assert field in d.columns;
    } else if targetType == "values" {
      assert field in d.values;
    }
  }

  /** The selector's state: the lists and aggregations the handlers update. */
  class FieldSelector {
    var rows: seq<string>
    var columns: seq<string>
    var values: seq<string>
    var aggregations: map<string, string>

    function State(): Assignment
      reads this
    {
      Assignment(rows, columns, values, aggregations)
    }

    /** The empty lists and aggregations the application starts from. */
    constructor ()
      ensures State() == Assignment([], [], [], map[])
    {
      rows := [];
      columns := [];
      values := [];
      aggregations := map[];
    }

    /** `handleDrop(field, targetType)`: copies of the lists are updated step
        by step, then all four are committed together. */
    method HandleDrop(field: string, targetType: string)
      modifies this
      ensures State() == Drop(old(State()), field, targetType)
    {
      var newRows := rows;
      var newColumns := columns;
      var newValues := values;
      var newAggregations := aggregations;

      if field in newRows {
        newRows := Without(newRows, field);
      } else {
        WithoutAbsent(newRows, field);
      }
      if field in newColumns {
        newColumns := Without(newColumns, field);
      } else {
        WithoutAbsent(newColumns, field);
      }
      if field in newValues {
        newValues := Without(newValues, field);
        newAggregations := newAggregations - {field};
      } else {
        WithoutAbsent(newValues, field);
      }

      if targetType == "rows" && field !in newRows {
        newRows := newRows + [field];
      }
      if targetType == "columns" && field !in newColumns {
        newColumns := newColumns + [field];
      }
      if targetType == "values" && field !in newValues {
        newValues := newValues + [field];
      }

      rows := newRows;
      columns := newColumns;
      values := newValues;
      aggregations := newAggregations;
    }

    /** `handleRemove(field)`: each list is filtered only if it holds the
        field, and the aggregation is deleted only with a value field. */
    method HandleRemove(field: string)
      modifies this
      ensures State() == Remove(old(State()), field)
    {
      if field in rows {
        rows := Without(rows, field);
      } else {
        WithoutAbsent(rows, field);
      }
      if field in columns {
        columns := Without(columns, field);
      } else {
        WithoutAbsent(columns, field);
      }
      if field in values {
        values := Without(values, field);
        aggregations := aggregations - {field};
      } else {
        WithoutAbsent(values, field);
      }
    }

    /** `handleReset()`: every list and the aggregations emptied. */
    method HandleReset()
      modifies this
      ensures State() == Assignment([], [], [], map[])
    {
      rows := [];
      columns := [];
      values := [];
      aggregations := map[];
    }
  }
}

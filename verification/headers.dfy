/** The header rows of the pivot table (src/components/PivotTable.jsx, lines
    36-61): the column tree is walked depth-first, and every entry pushes a
    header cell onto the row of its level. An entry holding a non-empty object
    spans the leaves under it; any other entry is a value-field leaf that
    reaches down to the last header row. */
module Headers {
  import opened Wrappers
  import opened Aggregation
  import opened Ordering
  import opened ColumnTree

  /** One `<th>`: its text, `colSpan` and `rowSpan`. */
  datatype Header = Header(text: string, colSpan: nat, rowSpan: nat)

  /** `child && typeof child === "object" && Object.keys(child).length > 0`. */
  predicate Internal(e: Entry)
  {
    e.child.Node? && |e.child.children| > 0
  }

  /** The header an entry at `level` pushes, with `depth` header rows. */
  function EntryHeader(e: Entry, level: nat, depth: nat, values: seq<string>,
                       aggregations: map<string, string>): (h: Header)
    requires level < depth
    ensures Internal(e) ==> h == Header(e.key, LeafCount(e.child), 1)
    ensures !Internal(e) && values == [] ==> h == Header(e.key, 0, depth - level)
    ensures !Internal(e) && values != [] ==>
      h == Header(e.key + " (" + AggregationOf(aggregations, e.key) + ")", 1, depth - level)
    ensures 1 <= h.rowSpan && level + h.rowSpan <= depth
  {
    if Internal(e) then Header(e.key, LeafCount(e.child), 1)
    else if values == [] then Header(e.key, 0, depth - level)
    else Header(e.key + " (" + AggregationOf(aggregations, e.key) + ")", 1, depth - level)
  }

  /** `rows[level].push(h)`. */
  function Push(rows: seq<seq<Header>>, level: nat, h: Header): (r: seq<seq<Header>>)
    requires level < |rows|
    ensures |r| == |rows| && r[level] == rows[level] + [h]
    ensures forall i :: 0 <= i < |rows| && i != level ==> r[i] == rows[i]
  {
    rows[level := rows[level] + [h]]
  }

  /** What `traverse(node, level)` leaves in `rows`: the entries of the
      object in order, each pushing its header and then, when it holds a
      non-empty object, walking it one level down. The rows above `level` and
      from `level + MaxDepth(node)` on are left alone, and the others only
      grow. */
  function Emit(acc: seq<seq<Header>>, ch: seq<Entry>, level: nat, values: seq<string>,
                aggregations: map<string, string>): (r: seq<seq<Header>>)
    requires level + MaxDepth(Node(ch)) <= |acc|
    ensures |r| == |acc|
    ensures forall i :: 0 <= i < |acc| ==> acc[i] <= r[i]
    ensures forall i :: 0 <= i < |acc| && (i < level || level + MaxDepth(Node(ch)) <= i) ==> r[i] == acc[i]
    decreases ch
  {
    if ch == [] then acc
    else
      MaxChildDepthBound(ch, |ch| - 1);
      var prev := Emit(acc, ch[..|ch| - 1], level, values, aggregations);
      EmitEntry(prev, ch[|ch| - 1], level, values, aggregations)
  }

  /** One iteration of the loop of `traverse`. */
  function EmitEntry(acc: seq<seq<Header>>, e: Entry, level: nat, values: seq<string>,
                     aggregations: map<string, string>): (r: seq<seq<Header>>)
    requires level + 1 + MaxDepth(e.child) <= |acc|
    ensures |r| == |acc|
    ensures forall i :: 0 <= i < |acc| ==> acc[i] <= r[i]
    ensures forall i :: 0 <= i < |acc| && (i < level || level + 1 + MaxDepth(e.child) <= i) ==> r[i] == acc[i]
    decreases e
  {
    var a := Push(acc, level, EntryHeader(e, level, |acc|, values, aggregations));
    if Internal(e) then Emit(a, e.child.children, level + 1, values, aggregations) else a
  }

  /** `renderHeaderRows(tree, depth, values, aggregations)`: `depth` empty
      rows filled by `traverse(tree, 0)`. */
  function HeaderRows(tree: seq<Entry>, depth: nat, values: seq<string>,
                      aggregations: map<string, string>): (rows: seq<seq<Header>>)
    requires MaxDepth(Node(tree)) <= depth
    ensures |rows| == depth
  {
    Emit(seq(depth, _ => []), tree, 0, values, aggregations)
  }

  /** The deepest entry bounds the depth of every entry and of every prefix. */
  lemma MaxChildDepthBound(ch: seq<Entry>, k: nat)
    requires k < |ch|
    ensures MaxDepth(ch[k].child) <= MaxChildDepth(ch)
    ensures MaxChildDepth(ch[..k]) <= MaxChildDepth(ch)
    ensures MaxChildDepth(ch[..k + 1]) <= MaxChildDepth(ch)
    decreases |ch|
  {
    if k < |ch| - 1 {
      MaxChildDepthBound(ch[..|ch| - 1], k);
      assert ch[..|ch| - 1][..k] == ch[..k];
      assert ch[..|ch| - 1][..k + 1] == ch[..k + 1];
    } else {
      assert ch[..k + 1] == ch;
    }
  }

  /** `traverse(node, level)` on the shared array of rows. */
  method Traverse(rows: array<seq<Header>>, ch: seq<Entry>, level: nat, values: seq<string>,
                  aggregations: map<string, string>)
    requires level + MaxDepth(Node(ch)) <= rows.Length
    modifies rows
    ensures rows[..] == Emit(old(rows[..]), ch, level, values, aggregations)
    decreases ch
  {
    ghost var start := rows[..];
    for k := 0 to |ch|
      invariant level + MaxDepth(Node(ch[..k])) <= rows.Length
      invariant rows[..] == Emit(start, ch[..k], level, values, aggregations)
    {
      MaxChildDepthBound(ch, k);
      assert ch[..k + 1][..k] == ch[..k];
      var e := ch[k];
      var h := EntryHeader(e, level, rows.Length, values, aggregations);
      if e.child.Node? && |e.child.children| > 0 {
        var colSpan := CountLeafNodes(e.child);
        h := Header(e.key, colSpan, 1);
      }
      ghost var before := rows[..];
      rows[level] := rows[level] + [h];
      assert rows[..] == Push(before, level, h);
      if e.child.Node? && |e.child.children| > 0 {
        Traverse(rows, e.child.children, level + 1, values, aggregations);
      }
    }
    assert ch[..|ch|] == ch;
  }

  /** `renderHeaderRows(tree, depth, values, aggregations)` (src/components/PivotTable.jsx,
      lines 36-61). */
  method RenderHeaderRows(tree: seq<Entry>, depth: nat, values: seq<string>,
                          aggregations: map<string, string>) returns (rows: seq<seq<Header>>)
    requires MaxDepth(Node(tree)) <= depth
    ensures rows == HeaderRows(tree, depth, values, aggregations)
  {
    var a := new seq<Header>[depth](_ => []);
    assert a[..] == seq(depth, _ => []);
    Traverse(a, tree, 0, values, aggregations);
    rows := a[..];
  }

  /** Every header spans at least one row and ends at or above the last row. */
  predicate WellSpanned(rows: seq<seq<Header>>)
  {
    forall i, j :: 0 <= i < |rows| && 0 <= j < |rows[i]| ==> 1 <= rows[i][j].rowSpan && i + rows[i][j].rowSpan <= |rows|
  }

  lemma PushWellSpanned(rows: seq<seq<Header>>, level: nat, h: Header)
    requires WellSpanned(rows) && level < |rows| && 1 <= h.rowSpan && level + h.rowSpan <= |rows|
    ensures WellSpanned(Push(rows, level, h))
  {
    var r: seq<seq<Header>> := Push(rows, level, h);
    forall i: nat, j: nat | i < |r| && j < |r[i]| ensures 1 <= r[i][j].rowSpan && i + r[i][j].rowSpan <= |r| {
      if i == level && j < |rows[level]| {
        assert r[i][j] == rows[i][j];
      }
    }
  }

  /** The walk pushes only headers whose row span fits below their row. */
  lemma {:induction false} EmitWellSpanned(acc: seq<seq<Header>>, ch: seq<Entry>, level: nat, values: seq<string>,
                                           aggregations: map<string, string>)
    requires level + MaxDepth(Node(ch)) <= |acc| && WellSpanned(acc)
    ensures WellSpanned(Emit(acc, ch, level, values, aggregations))
    decreases ch
  {
    if ch != [] {
      MaxChildDepthBound(ch, |ch| - 1);
      EmitWellSpanned(acc, ch[..|ch| - 1], level, values, aggregations);
      var prev := Emit(acc, ch[..|ch| - 1], level, values, aggregations);
      EmitEntryWellSpanned(prev, ch[|ch| - 1], level, values, aggregations);
    }
  }

  lemma {:induction false} EmitEntryWellSpanned(acc: seq<seq<Header>>, e: Entry, level: nat, values: seq<string>,
                                                aggregations: map<string, string>)
    requires level + 1 + MaxDepth(e.child) <= |acc| && WellSpanned(acc)
    ensures WellSpanned(EmitEntry(acc, e, level, values, aggregations))
    decreases e
  {
    var h := EntryHeader(e, level, |acc|, values, aggregations);
    PushWellSpanned(acc, level, h);
    if Internal(e) {
      EmitWellSpanned(Push(acc, level, h), e.child.children, level + 1, values, aggregations);
    }
  }

  /** The header rows of any column tree are well spanned. */
  lemma HeaderRowsWellSpanned(tree: seq<Entry>, depth: nat, values: seq<string>, aggregations: map<string, string>)
    requires MaxDepth(Node(tree)) <= depth
    ensures WellSpanned(HeaderRows(tree, depth, values, aggregations))
  {
    EmitWellSpanned(seq(depth, _ => []), tree, 0, values, aggregations);
  }

  /** The total width of a header row. */
  function ColSpanSum(hs: seq<Header>): nat
  {
    if hs == [] then 0 else ColSpanSum(hs[..|hs| - 1]) + hs[|hs| - 1].colSpan
  }

  lemma ColSpanSumPush(hs: seq<Header>, h: Header)
    ensures ColSpanSum(hs + [h]) == ColSpanSum(hs) + h.colSpan
  {
    assert (hs + [h])[..|hs|] == hs;
  }

  /** A row of width 0 holds only headers of width 0. */
  lemma {:induction false} ColSpanSumZero(hs: seq<Header>)
    requires ColSpanSum(hs) == 0
    ensures forall j :: 0 <= j < |hs| ==> hs[j].colSpan == 0
    decreases |hs|
  {
    if hs != [] {
      ColSpanSumZero(hs[..|hs| - 1]);
      assert forall j :: 0 <= j < |hs| - 1 ==> hs[j] == hs[..|hs| - 1][j];
    }
  }

  /** The width each row gains from a walk: the number of leaves below the
      walked object on each of the `k + 1` rows it reaches. */
  predicate Gained(acc: seq<seq<Header>>, r: seq<seq<Header>>, level: nat, k: nat, width: nat)
    requires |r| == |acc|
  {
    forall i :: 0 <= i < |acc| ==> ColSpanSum(r[i]) == ColSpanSum(acc[i]) + (if level <= i <= level + k then width else 0)
  }

  /** Walking an object of value leaves adds one to the width of its row per leaf. */
  lemma {:induction false} EmitLeafRow(acc: seq<seq<Header>>, ch: seq<Entry>, level: nat, values: seq<string>,
                                       aggregations: map<string, string>)
    requires forall i :: 0 <= i < |ch| ==> ch[i].child == Leaf
    requires values != [] && level + MaxDepth(Node(ch)) <= |acc|
    ensures Gained(acc, Emit(acc, ch, level, values, aggregations), level, 0, |ch|)
    decreases |ch|
  {
    if ch != [] {
      var n := |ch| - 1;
      MaxChildDepthBound(ch, n);
      EmitLeafRow(acc, ch[..n], level, values, aggregations);
      var prev := Emit(acc, ch[..n], level, values, aggregations);
      var h := EntryHeader(ch[n], level, |acc|, values, aggregations);
      ColSpanSumPush(prev[level], h);
    }
  }

  /** A layered tree with at least one level of objects: every object on the
      first `k` levels has distinct keys and non-empty objects below. */
  lemma LayeredPrefix(ch: seq<Entry>, k: nat, values: seq<string>, m: nat)
    requires k >= 1 && Layered(ch, k, values) && m <= |ch|
    ensures Layered(ch[..m], k, values)
  {
    assert forall i :: 0 <= i < m ==> ch[..m][i] == ch[i];
  }

  /** Walking an object of `k`-segment keys (`k >= 1`) adds, to each of the
      `k + 1` rows from `level` on, the number of leaves below it. */
  lemma {:induction false} EmitSpans(acc: seq<seq<Header>>, ch: seq<Entry>, level: nat, k: nat, values: seq<string>,
                                     aggregations: map<string, string>)
    requires k >= 1 && Layered(ch, k, values)
    requires level + MaxDepth(Node(ch)) <= |acc| && level + k < |acc|
    ensures Gained(acc, Emit(acc, ch, level, values, aggregations), level, k, LeafCountSeq(ch))
    decreases ch
  {
    if ch != [] {
      var n := |ch| - 1;
      MaxChildDepthBound(ch, n);
      LayeredPrefix(ch, k, values, n);
      EmitSpans(acc, ch[..n], level, k, values, aggregations);
      var prev := Emit(acc, ch[..n], level, values, aggregations);
      EmitEntrySpans(prev, ch[n], level, k, values, aggregations);
    }
  }

  lemma {:induction false} EmitEntrySpans(acc: seq<seq<Header>>, e: Entry, level: nat, k: nat, values: seq<string>,
                                          aggregations: map<string, string>)
    requires k >= 1 && e.child.Node? && (k > 1 ==> |e.child.children| > 0) && Layered(e.child.children, k - 1, values)
    requires level + 1 + MaxDepth(e.child) <= |acc| && level + k < |acc|
    ensures Gained(acc, EmitEntry(acc, e, level, values, aggregations), level, k, LeafCount(e.child))
    decreases e
  {
    var h := EntryHeader(e, level, |acc|, values, aggregations);
    var a := Push(acc, level, h);
    PushGained(acc, level, h);
    var c := e.child.children;
    if Internal(e) {
      if k == 1 {
        EmitLeafRow(a, c, level + 1, values, aggregations);
        LeafEntriesCount(values);
      } else {
        EmitSpans(a, c, level + 1, k - 1, values, aggregations);
      }
      GainedThen(acc, a, EmitEntry(acc, e, level, values, aggregations), level, k, LeafCount(e.child));
    } else {
      assert h.colSpan == 0;
      GainedNothing(acc, a, level, k);
    }
  }

  /** A push adds the width of its header to its row. */
  lemma PushGained(rows: seq<seq<Header>>, level: nat, h: Header)
    requires level < |rows|
    ensures Gained(rows, Push(rows, level, h), level, 0, h.colSpan)
  {
    ColSpanSumPush(rows[level], h);
  }

  /** A header on row `level`, then a walk that adds `w` to the `k` rows
      below, add `w` to the `k + 1` rows from `level` on. */
  lemma GainedThen(acc: seq<seq<Header>>, a: seq<seq<Header>>, r: seq<seq<Header>>, level: nat, k: nat, w: nat)
    requires k >= 1 && |a| == |acc| && |r| == |acc|
    requires Gained(acc, a, level, 0, w) && Gained(a, r, level + 1, k - 1, w)
    ensures Gained(acc, r, level, k, w)
  {
  }

  /** Adding width 0 to one row adds width 0 to any band of rows. */
  lemma GainedNothing(acc: seq<seq<Header>>, r: seq<seq<Header>>, level: nat, k: nat)
    requires |r| == |acc| && Gained(acc, r, level, 0, 0)
    ensures Gained(acc, r, level, k, 0)
  {
  }

  /** The header rows of the column tree of distinct `n`-segment keys: `n + 1`
      rows (1 without keys), every header fitting below its row, and every
      row exactly as wide as the number of (column key, value field) pairs. */
  lemma HeaderSpans(columns: seq<string>, values: seq<string>, aggregations: map<string, string>, n: nat)
    requires Distinct(values) && Distinct(columns) && n >= 1 && Uniform(columns, n)
    ensures var t := BuildSpec(columns, values);
      var rows := HeaderRows(t, MaxDepth(Node(t)), values, aggregations);
      |rows| == (if columns == [] then 1 else n + 1)
      && WellSpanned(rows)
      && forall i :: 0 <= i < |rows| ==> ColSpanSum(rows[i]) == |columns| * |values|
  {
    var t := BuildSpec(columns, values);
    var depth := MaxDepth(Node(t));
    BuildLayered(columns, values, n);
    BuildCount(columns, values, n);
    LayeredDepth(t, n, values);
    HeaderRowsWellSpanned(t, depth, values, aggregations);
    if columns != [] {
      EmitSpans(seq(depth, _ => []), t, 0, n, values, aggregations);
    }
  }

  /** Without value fields every header of the table has width 0. */
  lemma NoValuesNoWidth(columns: seq<string>, aggregations: map<string, string>, n: nat)
    requires Distinct(columns) && n >= 1 && Uniform(columns, n)
    ensures var t := BuildSpec(columns, []);
      var rows: seq<seq<Header>> := HeaderRows(t, MaxDepth(Node(t)), [], aggregations);
      forall i, j :: 0 <= i < |rows| && 0 <= j < |rows[i]| ==> rows[i][j].colSpan == 0
  {
    var t := BuildSpec(columns, []);
    var rows: seq<seq<Header>> := HeaderRows(t, MaxDepth(Node(t)), [], aggregations);
    HeaderSpans(columns, [], aggregations, n);
    forall i | 0 <= i < |rows| ensures forall j :: 0 <= j < |rows[i]| ==> rows[i][j].colSpan == 0 {
      ColSpanSumZero(rows[i]);
    }
  }
}

# Pivot table: a verified model

This project models the core of a small spreadsheet pivot-table application.
The core has three parts.

- **The pivot engine** (`generatePivotData`). Every record gets a composite row key and a composite column key. Each key is the record's values for the chosen fields, joined with `" | "`. A field named `<base>_Year`, `<base>_Quarter` or `<base>_Month` is a date level: the engine reads it from a day-month-year string in field `<base>`. The engine groups the numeric samples of each value field under `rowKey + "||" + columnKey`. It then lists the distinct row and column keys in sorted order. From these it builds a dense matrix of sum, avg, count, min and max aggregates, a total per row, and per column the totals the footer shows.
- **The column header layout** (`buildColumnTree`, `getMaxDepth`, `renderHeaderRows` with its inner `traverse`, `countLeafNodes`). The table's body cells, row totals and grand totals are computed there too.
- **The field selector**. It detects date columns by name and derives three hierarchy fields per date column. It moves a field between the row, column and value lists (`handleDrop`, `handleRemove`, `handleReset`) and keeps the aggregation chosen per value field. It also lists the fields still available.

Numbers in records are integers (`Records.Value.Num`). Aggregates and totals are reals, because `avg` divides. `toFixed(2)` is modelled exactly, as rounding half away from zero to hundredths (`Aggregation.Round2`). The engine's `Map` and `Set` are a Dafny `map` and a duplicate-free `seq`. The header tree is a datatype: `Leaf` is `null`, and `Node` is an object whose keys keep their insertion order. The field selector is a class whose fields the handlers update.

Three results tie the parts together:
- `Reconcile.GrandTotalIsDataTotal`: with `sum` aggregation, the footer's grand total for a value field equals that field's total over all records.
- `Headers.HeaderSpans`: every header row's column spans add up to exactly the `|pivotColumns| * |values|` value cells of every body row.
- `Table.TableAligned`: the same match between the header's column spans and the body's value cells, stated for the table the engine actually produces. The row-part cells in front of the value cells are covered separately by `Table.PivotRowsUniform` and `Table.ColumnsOnlyRowPart`.

Behaviours of the code that are easy to miss, all kept by the model:
- **Header row count.** For columns of `n` segments there are `n + 1` header rows, because the value leaves form their own row (`getMaxDepth` counts them).
- **No value fields.** Without value fields, the tree holds empty objects at the ends of the column paths. `countLeafNodes` gives those empty objects 0, so every header span is 0 (`Headers.NoValuesNoWidth`).
- **The `avg` column total.** It divides by the number of non-zero cells, not by the number of rows.
- **The `min` column total.** It skips cells equal to 0.
- **Repeated value field.** A value field listed twice makes a single leaf in the tree but two body cells. So span alignment needs distinct value fields (the `Distinct(values)` hypothesis).
- **Level suffix inside a date column's name.** The engine tests `_Year` before `_Quarter` and `_Month`, and removes only the first occurrence. So a date column whose own name holds a level suffix, such as `Fiscal_Year_Date`, gets hierarchy names the engine reads as another column (`FieldSelection.HierarchyNameMisresolved`). Names with other underscores, such as `Order_Date`, resolve as intended.
- **`NaN` in the footer.** An avg column whose cells are all 0 has the total `"NaN"`. That text is truthy, so `total[val] || 0` keeps it, and the grand total of that field shows `NaN` (`Table.AvgZeroColumnGrandTotal`).
- **Tables without row fields.** With column fields but no row fields, every row key is `""`, which splits into one part. Each body row draws that part as a cell, while the header has no row-field cell above it, so the body is one column wider than the header (`Table.ColumnsOnlyRowPart`).
- **Round trip of composite keys.** It needs values free of `'|'`, not merely free of `" | "`. `Strings.SplitJoinNeedsBarFreeValues` exhibits two values without `" | "` whose joined key splits differently.

## Model

| member | source | states |
|---|---|---|
| Strings.IndexOf | src/utils/pivotData.js:38-39 | the first occurrence of a pattern at or after a position, or None exactly when there is none |
| Strings.Includes | src/utils/pivotData.js:38 | `includes` holds iff the pattern occurs at some position |
| Strings.Split | src/components/PivotTable.jsx:9 | splitting on a delimiter yields at least one piece |
| Strings.JoinSplit | src/components/PivotTable.jsx:9 | joining the pieces of a split with the same delimiter gives back the string |
| Strings.SplitJoin | src/utils/pivotData.js:49 | splitting a delimiter-joined key gives back exactly its parts, in order, when no part contains a bar character |
| Strings.SplitJoinNeedsBarFreeValues | src/utils/pivotData.js:49 | two values free of the delimiter whose joined key does not split back into them |
| Strings.SplitOnPiece | src/utils/pivotData.js:12 | splitting on `-` or `/` cuts at the first separator |
| Strings.SplitOnWhole | src/utils/pivotData.js:12 | a string without separators splits into itself alone |
| Strings.SplitOn | src/utils/pivotData.js:12 | a split yields at least one part |
| Strings.ToLower | src/components/FieldSelector.jsx:114 | lower-casing keeps the length |
| Strings.NatToString | src/utils/pivotData.js:26 | the decimal form of a number is a non-empty digit string |
| Strings.ParsePrinted | src/utils/pivotData.js:14 | reading the decimal form of a number gives back the number |
| Strings.PrintParsed | src/utils/pivotData.js:26 | a digit string without a leading zero is the printed form of its value |
| Ordering.BelowTotal | src/utils/pivotData.js:97 | any two keys are comparable in the order `sort()` uses |
| Ordering.BelowTransitive | src/utils/pivotData.js:97 | the order `sort()` uses is transitive |
| Ordering.BelowAntisymmetric | src/utils/pivotData.js:97 | two keys each below the other are equal |
| Ordering.Insert | src/utils/pivotData.js:97 | inserting a key adds exactly that key to the multiset |
| Ordering.InsertSorted | src/utils/pivotData.js:97 | inserting into a sorted list keeps it sorted |
| Ordering.Sort | src/utils/pivotData.js:97 | the sorted list is a permutation of the input and is sorted |
| Ordering.Dedup | src/utils/pivotData.js:83 | `Array.from(new Set(..))` has no duplicates and exactly the input's members |
| Ordering.SortedKeys | src/utils/pivotData.js:83-99 | the distinct sorted keys are strictly increasing and have exactly the input's members |
| Aggregation.AggregationOf | src/utils/pivotData.js:108 | the chosen aggregation when it is non-empty, `"sum"` otherwise |
| Aggregation.Min | src/utils/pivotData.js:122 | `Math.min` of a non-empty list (a cell's samples, or a column's non-zero cells) is one of them and none is smaller |
| Aggregation.Max | src/utils/pivotData.js:125 | `Math.max` of a non-empty list (a cell's samples, or a column's cells) is one of them and none is larger |
| Aggregation.Round2 | src/utils/pivotData.js:112 | `toFixed(2)` is a whole number of hundredths within half a hundredth of its input |
| Aggregation.Round2Integer | src/utils/pivotData.js:112 | rounding a whole number to hundredths leaves it unchanged |
| Aggregation.FixIfFractional | src/utils/pivotData.js:112 | a whole number is kept, and anything else moves by at most half a hundredth |
| Aggregation.Aggregate | src/utils/pivotData.js:106-130 | an empty sample list or an unknown aggregation gives 0. Otherwise sum is the total, count the number of samples, min/max a least/greatest sample, and avg the rounded mean |
| Aggregation.NonZero | src/utils/pivotData.js:148 | exactly the non-zero cells, never more of them than there were cells |
| Aggregation.SumNonZero | src/utils/pivotData.js:157 | dropping zero cells does not change the column sum |
| Aggregation.AllZeroSum | src/utils/pivotData.js:157 | a column with no non-zero cell sums to 0 (the avg total is 0/0 then) |
| Aggregation.ColumnTotal | src/utils/pivotData.js:146-175 | the total for each aggregation. sum is the rounded column sum and count the column sum. avg is the sum over the number of non-zero cells, NaN exactly when all cells are 0. min is the least non-zero cell, or 0 if there is none. max is the greatest cell, and an unknown aggregation or an empty column gives 0 |
| Aggregation.AvgSkipsZeroCells | src/utils/pivotData.js:154-158 | the avg total of cells 10, 0 and 20 is 15, not 10 |
| Keys.Classify | src/utils/pivotData.js:37-48 | a field is plain iff its name holds none of `_Year`, `_Quarter`, `_Month`. Otherwise it is the first suffix found, and the base is the name with that suffix's first occurrence removed |
| Keys.Resolve | src/utils/pivotData.js:37-48 | a missing or null plain field gives `"N/A"`, and any other value its string form |
| Keys.Resolved | src/utils/pivotData.js:37-49 | one resolved value per field, in field order |
| Keys.KeyRoundTrip | src/utils/pivotData.js:37-49 | splitting a composite key gives back exactly the resolved values, one per field, when none contains a bar character |
| Keys.EmptyFieldList | src/utils/pivotData.js:49 | no fields give the empty key, which splits into one empty part |
| Keys.KeyDeterminesValues | src/utils/pivotData.js:37-49 | two records with the same key agree on every field value (values free of a bar character) |
| Keys.SuffixFound | src/utils/pivotData.js:38-46 | for a base holding none of `_Year`, `_Quarter`, `_Month` (such as `Order_Date`), a hierarchy name contains its own suffix only at the end of the base and no other level suffix |
| Keys.SuffixRemoved | src/utils/pivotData.js:39 | for such a base, removing the suffix from a hierarchy name gives back the base field |
| Keys.HierarchyNameClassified | src/utils/pivotData.js:37-47 | for such a base, `<base>_<Level>` resolves as the date level `Level` of field `base` |
| Dates.Carry | src/utils/pivotData.js:16 | an overflowing day rolls into later months. The result is a valid date, and a valid day is kept as is |
| Dates.MakeDate | src/utils/pivotData.js:16 | `new Date(y, m - 1, d)` is a valid calendar date from year 100 on |
| Dates.QuarterLabels | src/utils/pivotData.js:28 | the quarter level is always one of `N/A`, `Q1`..`Q4` |
| Dates.LevelValueNotNA | src/utils/pivotData.js:24-30 | a parsed date never yields `"N/A"` |
| Dates.DerivedNAUnlessThreeNonZeroParts | src/utils/pivotData.js:11-23 | a date level differs from `"N/A"` iff the base value is truthy and splits on `-`/`/` into exactly three numeric, non-zero parts |
| Dates.SplitThreeGroups | src/utils/pivotData.js:12 | `d-m-y` (either separator) splits into its three digit groups |
| Dates.DateOfGroups | src/utils/pivotData.js:14-16 | three non-zero numbers make the date `new Date(y, m - 1, d)` |
| Dates.ParseThreeGroups | src/utils/pivotData.js:10-17 | `parseDMY` of `d-m-y` is `new Date(y, m - 1, d)` |
| Dates.MakeDateInRange | src/utils/pivotData.js:16 | an in-range day and month are taken as given, with two-digit years in the 1900s |
| Dates.ParseValidDate | src/utils/pivotData.js:10-17 | a valid `d-m-y` parses to exactly that calendar date |
| Dates.ParsedLevels | src/utils/pivotData.js:20-30 | the year, quarter and month levels of a parsed date: its year, `Q` + (floor((m - 1)/3) + 1), its English month name |
| Dates.ValidDateLevels | src/utils/pivotData.js:10-30 | the same three levels, straight from a valid `d-m-y` string |
| Dates.MidMarchExample | src/utils/pivotData.js:20-30 | `15-03-2023` gives `2023`, `Q1`, `March` |
| Dates.NotADate | src/utils/pivotData.js:21-23 | `not-a-date` gives `"N/A"` at every level |
| Dates.FirstPieceNotNumber | src/utils/pivotData.js:13-15 | a first part that is not a number makes the parse fail |
| Dates.DayCarryExample | src/utils/pivotData.js:16 | `31-02-2023` rolls over into March |
| Dates.MonthCarryExample | src/utils/pivotData.js:16 | `1-13-2023` rolls over into January 2024 |
| Dates.TwoDigitYearExample | src/utils/pivotData.js:16 | year `23` means 1923 |
| PivotData.KeyList | src/utils/pivotData.js:84-96 | one key per record, in record order |
| PivotData.KeyListMembers | src/utils/pivotData.js:84-96 | a key is listed iff some record composes to it |
| PivotData.ContributionMembers | src/utils/pivotData.js:72-80 | a record pushes the sample x for v iff v is a value field and its field v is the number x |
| PivotData.ContributionLength | src/utils/pivotData.js:72-80 | a numeric field pushes once per listing of v. Anything else pushes nothing |
| PivotData.SamplesMembers | src/utils/pivotData.js:36-81 | x is among the samples of (pivotKey, v) iff v is a value field and some record with that pivot key holds x in v |
| PivotData.SamplesSnoc | src/utils/pivotData.js:36-81 | the samples of a record prefix grow by exactly the next record's contribution, in order |
| PivotData.DedupSnoc | src/utils/pivotData.js:65 | adding a key to the insertion-ordered set appends it only when it is new |
| PivotData.PushedSamples | src/utils/pivotData.js:72-80 | pushing a record's numbers appends its contribution to each value field's list |
| PivotData.PushSamples | src/utils/pivotData.js:72-80 | the loop over the value fields appends each field's contribution |
| PivotData.LookupUpdate | src/utils/pivotData.js:67-70 | updating one group changes the sample lists of that pivot key only |
| PivotData.AddRecord | src/utils/pivotData.js:37-80 | one step of the grouping. The column key joins the set if new, the pivot key gets a group, and only that group's samples grow |
| PivotData.Group | src/utils/pivotData.js:36-81 | the grouping loop. The column set lists the records' column keys once each, in first-seen order, and every group's samples are those the specification collects |
| PivotData.RowTotals | src/utils/pivotData.js:136-141 | each row total is the row's sum, kept when whole and otherwise within half a hundredth |
| PivotData.ColumnOf | src/utils/pivotData.js:147 | one number per row, the cell value of column c (missing counts as 0) |
| PivotData.ColumnTotalsOf | src/utils/pivotData.js:144-177 | a total for exactly the value fields, each that field's column total |
| PivotData.ColumnTotalsAt | src/utils/pivotData.js:144-177 | the loop filling `totals` builds the column's totals |
| PivotData.ColumnTotals | src/utils/pivotData.js:143-178 | the loop over the columns yields their totals in column order |
| PivotData.AllColumnTotals | src/utils/pivotData.js:143-178 | one totals map per column, each that column's totals |
| PivotData.SpecCell | src/utils/pivotData.js:104-131 | a cell holds an entry for exactly the value fields |
| PivotData.MapCell | src/utils/pivotData.js:103-131 | a cell read from the grouping holds an entry for exactly the value fields |
| PivotData.Matrix | src/utils/pivotData.js:101-133 | the matrix is dense, one row per row key and one cell per column key, each the cell of that key pair |
| PivotData.MapMatrix | src/utils/pivotData.js:101-133 | the same shape, read from the grouping |
| PivotData.MapMatrixIsMatrix | src/utils/pivotData.js:67-133 | the matrix read from the grouping equals the one specified from the records |
| PivotData.PivotSpec | src/utils/pivotData.js:1-180 | no records, or no row and column fields, give five empty outputs. Otherwise the row and column keys are strictly sorted and are exactly the records' keys, the matrix is dense, and there is one row total per row and one totals map per column |
| PivotData.GeneratePivotData | src/utils/pivotData.js:1-181 | the imperative engine returns exactly the specified result |
| PivotData.RecordHasCell | src/utils/pivotData.js:83-103 | every record's pivot key is the key of some cell of the matrix |
| ColumnTree.Find | src/components/PivotTable.jsx:15 | the first child with a given key, or none when no child has it |
| ColumnTree.Lookup | src/components/PivotTable.jsx:15 | `current[part]` exists iff some child has that key |
| ColumnTree.Put | src/components/PivotTable.jsx:16-22 | assignment overwrites an existing key in place or appends a new one |
| ColumnTree.PutLookup | src/components/PivotTable.jsx:16-22 | after an assignment the key reads back the new subtree, the other keys are unchanged, and keys stay distinct |
| ColumnTree.LeafEntries | src/components/PivotTable.jsx:21-23 | one `null` leaf per value field, in order |
| ColumnTree.SetNullsLeaves | src/components/PivotTable.jsx:21-23 | setting the value leaves on a fresh node, or again on one that has them, gives exactly one leaf per value field |
| ColumnTree.InsertPath | src/components/PivotTable.jsx:13-25 | inserting a path leaves at least one child |
| ColumnTree.InsertPathPut | src/components/PivotTable.jsx:13-25 | inserting a path reassigns the first segment's child and leaves the other keys unchanged |
| ColumnTree.InsertLayered | src/components/PivotTable.jsx:13-25 | inserting an n-segment path keeps every path n segments deep with the value leaves under it |
| ColumnTree.InsertHasPath | src/components/PivotTable.jsx:13-25 | after inserting p, the paths of that length are the old ones plus p |
| ColumnTree.InsertCount | src/components/PivotTable.jsx:13-25 | inserting a path adds one leaf per value field, or none when the path was there |
| ColumnTree.BuildColumnTree | src/components/PivotTable.jsx:4-29 | the cursor walk over the column keys builds the specified tree |
| ColumnTree.BuildLayered | src/components/PivotTable.jsx:4-29 | the tree of n-segment keys has every leaf at depth n + 1 under a full key |
| ColumnTree.BuildHasPath | src/components/PivotTable.jsx:4-29 | the tree has a path iff it is the split of some column key |
| ColumnTree.LastKeyNew | src/components/PivotTable.jsx:7-26 | a key not seen before makes a new path in the tree |
| ColumnTree.BuildCount | src/components/PivotTable.jsx:4-29 | the tree has the number of columns times the number of value fields leaves |
| ColumnTree.LeafEntriesCount | src/components/PivotTable.jsx:63-70 | the value leaves of a node count one each |
| ColumnTree.CountLeafNodes | src/components/PivotTable.jsx:63-70 | the counting loop returns the leaf count of the tree |
| ColumnTree.MaxDepth | src/components/PivotTable.jsx:31-34 | an object has depth at least 1 |
| ColumnTree.LayeredEntriesAt | src/components/PivotTable.jsx:20-24 | under the last segment of every full key sit exactly the value leaves |
| ColumnTree.LayeredDepth | src/components/PivotTable.jsx:31-34 | a tree of n-segment paths has depth n + 1, and the empty tree depth 1 |
| ColumnTree.ColumnTreeShape | src/components/PivotTable.jsx:4-34 | the built tree is layered, has the number of columns times the number of value fields leaves and depth n + 1 (1 without columns), and every key's path exists with the value leaves under it |
| Headers.EntryHeader | src/components/PivotTable.jsx:43-54 | an internal node gets rowSpan 1 and colSpan its leaf count. A leaf gets `"<v> (<agg>)"` with colSpan 1, or its bare label with colSpan 0 when there are no value fields, and rowSpan depth - level. Every span stays inside the rows |
| Headers.Push | src/components/PivotTable.jsx:45 | a push appends to row `level` and changes no other row |
| Headers.Emit | src/components/PivotTable.jsx:39-57 | traversal only appends, and only to rows from `level` to below `level` + the subtree's depth |
| Headers.EmitEntry | src/components/PivotTable.jsx:41-55 | one child's headers only append, within its rows |
| Headers.HeaderRows | src/components/PivotTable.jsx:36-61 | exactly `depth` rows |
| Headers.Traverse | src/components/PivotTable.jsx:39-57 | the recursive pushes into the preallocated rows leave exactly the specified rows |
| Headers.RenderHeaderRows | src/components/PivotTable.jsx:36-61 | the rendered rows are the specified ones |
| Headers.EmitWellSpanned | src/components/PivotTable.jsx:39-57 | every header's rowSpan is at least 1 and ends within the rows |
| Headers.HeaderRowsWellSpanned | src/components/PivotTable.jsx:36-61 | no header spans past the last row, so no push is out of range |
| Headers.EmitLeafRow | src/components/PivotTable.jsx:48-54 | a row of leaves adds one column per leaf |
| Headers.EmitSpans | src/components/PivotTable.jsx:39-57 | each row below a layered subtree gains colSpans summing to its leaf count |
| Headers.HeaderSpans | src/components/PivotTable.jsx:106-108 | n + 1 rows (1 without columns), all well spanned, each with colSpans summing to the number of columns times the number of value fields |
| Headers.NoValuesNoWidth | src/components/PivotTable.jsx:49-50 | without value fields every header has colSpan 0 |
| Table.Shown | src/components/PivotTable.jsx:166 | a cell shows its value iff it is non-zero, and a blank otherwise |
| Table.BodyCells | src/components/PivotTable.jsx:163-169 | a body row has one cell per column and value field |
| Table.BodyCellAt | src/components/PivotTable.jsx:163-169 | the body cell at position c times the number of value fields plus k shows value field k of column c |
| Table.RowTotalsAgree | src/components/PivotTable.jsx:173 | the per-value row totals add up to the unrounded row sum, which the engine's `rowTotals` rounds to hundredths when it is fractional |
| Table.TotalNumber | src/components/PivotTable.jsx:194 | a missing total counts as 0, and a NaN total stays NaN because its text is truthy |
| Table.TotalsSum | src/components/PivotTable.jsx:194 | the sum of the column totals is NaN exactly when one of them is |
| Table.GrandTotal | src/components/PivotTable.jsx:194 | the grand total is NaN exactly when some column's total is; otherwise it is within 0.005 of the sum of the column totals, and exact when that sum is whole |
| Table.AvgZeroColumnGrandTotal | src/utils/pivotData.js:154-157 | an avg field with a column of zero cells has a NaN grand total |
| Table.MatrixInterchange | src/components/PivotTable.jsx:173 | summing a value field column by column equals summing it row by row |
| Table.SumTotalsAreColumnSums | src/utils/pivotData.js:150-153 | with integer cells, the sum totals of the first w columns add up to those columns' sums |
| Table.TotalsOfColumnSums | src/components/PivotTable.jsx:194 | totals holding the first w column sums add up to the sum of those columns |
| Table.SumColumnTotal | src/utils/pivotData.js:150-153 | with integer cells a sum total is the exact column sum |
| Table.GrandTotalOfSums | src/components/PivotTable.jsx:194 | with sum aggregation and integer cells, the grand total equals the sum of all cells of that field |
| Table.PivotSumCellsWhole | src/utils/pivotData.js:110-113 | sum cells of integer samples are whole numbers |
| Table.PivotGrandTotal | src/components/PivotTable.jsx:194 | the grand total of a sum field is the sum of its matrix cells |
| Table.PivotColumnsUniform | src/utils/pivotData.js:51-63 | every column key splits into one segment per column field, and into the single segment `""` when there are no column fields |
| Table.PivotColumnsDistinct | src/utils/pivotData.js:99 | the column keys are distinct |
| Table.TableAligned | src/components/PivotTable.jsx:106-169 | the header's column spans match the body's value cells: every header row spans exactly as many columns as every body row has value cells, the rows-only table included |
| Table.PivotRowsUniform | src/components/PivotTable.jsx:155-162 | every row key splits into one row-part cell per row field, and into the single cell `""` when there are no row fields |
| Table.ColumnsOnlyRowPart | src/components/PivotTable.jsx:116-124 | with column fields but no row fields, the only row key is `""`, drawn as one row-part cell under no row-field header |
| Table.AggLabel | src/components/PivotTable.jsx:137-144 | a known aggregation is shown capitalised, and any other as given |
| Reconcile.PivotKeyInjective | src/utils/pivotData.js:67 | when every bar in the two row keys stands between two spaces, equal pivot keys have equal row keys and equal column keys |
| Reconcile.PivotKeyCollision | src/utils/pivotData.js:67 | two different key pairs can share a pivot key |
| Reconcile.ContributionSum | src/utils/pivotData.js:72-80 | a record's pushed samples for v total its number v times the listings of v |
| Reconcile.AllPushedTotal | src/utils/pivotData.js:72-80 | all pushed samples of v total the data total of v times its listings |
| Reconcile.KeysTotalData | src/utils/pivotData.js:36-81 | summing the groups over keys that list every record's key once gives all pushed samples |
| Reconcile.RowKeys | src/utils/pivotData.js:102-103 | the pivot keys of a row, one per column |
| Reconcile.PairKeysHas | src/utils/pivotData.js:101-103 | every (row, column) pair's pivot key is among the matrix's keys |
| Reconcile.PairKeysOnly | src/utils/pivotData.js:101-103 | the matrix's keys are only those pairs' pivot keys |
| Reconcile.PairKeysDistinct | src/utils/pivotData.js:101-103 | distinct rows and columns give distinct pivot keys |
| Reconcile.GroupsListedOnce | src/utils/pivotData.js:101-103 | when every record's key is a cell key, the matrix lists each record's key exactly once |
| Reconcile.PivotRowsSpaced | src/utils/pivotData.js:37-49 | in the row keys of bar-free values every bar stands between two spaces |
| Reconcile.RowTotalIsKeysTotal | src/components/PivotTable.jsx:173 | a row's sum total is the sum of its groups' sample totals |
| Reconcile.MatrixSumIsKeysTotal | src/utils/pivotData.js:101-133 | the matrix's sum of v is the groups' sample total over all cell keys |
| Reconcile.PivotLayout | src/utils/pivotData.js:83-133 | the produced matrix is dense, its keys are distinct, and every record lands in a cell |
| Reconcile.PivotLaidOut | src/utils/pivotData.js:83-133 | the produced result meets the layout the reconciliation needs |
| Reconcile.MatrixSumIsDataTotal | src/utils/pivotData.js:101-133 | a laid-out matrix's sum of v equals the data total of v times its listings |
| Reconcile.PivotMatrixSum | src/utils/pivotData.js:36-133 | the produced matrix's sum of v equals the data total of v times its listings |
| Reconcile.GrandTotalIsDataTotal | src/components/PivotTable.jsx:194 | with sum aggregation the grand total of v equals the total of v over all records (times its listings) |
| FieldSelection.Filter | src/components/FieldSelector.jsx:136 | `filter` keeps exactly the members that pass and never lengthens the list |
| FieldSelection.FilterDistinct | src/components/FieldSelector.jsx:136-139 | filtering a duplicate-free list keeps it duplicate-free |
| FieldSelection.WithoutAbsent | src/components/FieldSelector.jsx:136-139 | removing an absent field changes nothing |
| FieldSelection.DateFieldExamples | src/components/FieldSelector.jsx:113-117 | `Created On`, `DOB` and `Update` are detected as date columns |
| FieldSelection.NotDateFieldExample | src/components/FieldSelector.jsx:113-117 | `Amount` is not a date column |
| FieldSelection.DateColumns | src/components/FieldSelector.jsx:113-117 | the date columns are exactly the fields whose lower-cased name holds `" on"`, `date` or `dob` |
| FieldSelection.HierarchyNames | src/components/FieldSelector.jsx:119-123 | three names per date column, `_Year`, `_Quarter`, `_Month` in that order |
| FieldSelection.HierarchyNamesResolve | src/components/FieldSelector.jsx:119-123 | the engine reads each generated name as the intended level of its date column, when the column's name holds none of the three level suffixes |
| FieldSelection.YearInNameMisresolved | src/utils/pivotData.js:37-39 | a date column named `<pre>_Year<rest>` has each hierarchy name read as the year level of the column `<pre><rest>` plus the level suffix |
| FieldSelection.HierarchyNameMisresolved | src/components/FieldSelector.jsx:113-123 | `Fiscal_Year_Date` is a date column, and its month name resolves as the year of a column `Fiscal_Date_Month` |
| FieldSelection.DropPlaces | src/components/FieldSelector.jsx:135-146 | a dropped field is once, at the end of its target list, and in no other list. With another target it is in no list |
| FieldSelection.DropKeepsOrder | src/components/FieldSelector.jsx:136-146 | a drop keeps the relative order of all other fields |
| FieldSelection.DropAggregations | src/components/FieldSelector.jsx:138-141 | a value field loses its aggregation and every other entry is unchanged |
| FieldSelection.DropKeepsPlaced | src/components/FieldSelector.jsx:130-146 | disjoint duplicate-free lists stay so after a drop |
| FieldSelection.DropKeepsTracked | src/components/FieldSelector.jsx:133-141 | aggregations stay on value fields only |
| FieldSelection.DropTwice | src/components/FieldSelector.jsx:129-153 | dropping the same field on the same target twice is the same as once |
| FieldSelection.RemoveClears | src/components/FieldSelector.jsx:156-165 | the field leaves every list and its aggregation goes, and nothing else changes |
| FieldSelection.RemoveKeepsInvariants | src/components/FieldSelector.jsx:156-165 | removal keeps the lists disjoint and the aggregations on value fields |
| FieldSelection.DropThenRemove | src/components/FieldSelector.jsx:129-165 | removing a just-dropped field is the same as removing it in the first place |
| FieldSelection.RemoveAbsent | src/components/FieldSelector.jsx:156-165 | removing an unassigned field changes nothing |
| FieldSelection.AvailableMembers | src/components/FieldSelector.jsx:175-178 | a field is available iff it is a plain or hierarchy field in none of the three lists |
| FieldSelection.DropAvailability | src/components/FieldSelector.jsx:129-178 | a field dropped on a list is no longer available, and one dropped elsewhere is available again |
| FieldSelection.FieldSelector.constructor | src/App.tsx:9-12 | the lists start empty and the aggregations start as `{}` |
| FieldSelection.FieldSelector.HandleDrop | src/components/FieldSelector.jsx:129-153 | the step-by-step updates leave the state `Drop` describes |
| FieldSelection.FieldSelector.HandleRemove | src/components/FieldSelector.jsx:156-165 | the conditional setters leave the state `Remove` describes |
| FieldSelection.FieldSelector.HandleReset | src/components/FieldSelector.jsx:167-172 | all three lists empty and no aggregations |

## Left out

- Floating point: record numbers are integers and aggregates are exact reals. So float rounding in sums and means is not modelled; only `toFixed(2)` is, as exact rounding.
- `Number(...)` on strings is modelled as reading non-empty decimal digits. Forms such as `" 15"`, `"1e1"` or `"0x10"` are not accepted.
- Values with `typeof` other than number, string, boolean or null/undefined (objects, dates, bigints) are not modelled.
- Dates:
  - The day/month rollover of `new Date` and the 19xx reading of two-digit years are modelled.
  - Dates outside the range `Date` can represent, which make `isNaN(date)` hold, are not.
- `toLocaleString` month names are a fixed table of English names. Other locales are not modelled.
- Key order:
  - `sort()` compares UTF-16 code units, while the model compares characters (code points). They differ only for characters outside the Basic Multilingual Plane.
  - Objects enumerate integer-like keys before other keys, and this is not modelled. Tree children and cell entries keep insertion order, so header order can differ from the source when a segment is a number, e.g. a year.
- Field names and column values (header segments) such as `__proto__`, `constructor`, `toString` or `valueOf`, which plain objects treat specially, are not modelled. In the source such a segment finds an inherited member at src/components/PivotTable.jsx:15, so no node is created for it and `for…in` (line 40) never lists it. `ColumnTree.Lookup` finds no such key and builds the node.
- Statement-level side effects that change no result are not modelled: the `console.log` in the avg column total, React state scheduling, `useEffect`, and JSX rendering and drag-and-drop.
- The aggregation drop-down setter (src/components/FieldSelector.jsx:31) is not modelled as an operation. Its effect appears as the invariant `FieldSelection.Tracked`, which says aggregations belong to value fields.
- The spreadsheet parser, the uploader, the application shell and the icons: src/utils/xlsxParser.js, src/components/FileUploader.jsx, src/components/FileUploader.tsx, src/App.tsx and src/assets/icons.jsx are not part of this model.
- Aggregation.ColumnTotal: the avg column total is a string made by `toFixed` in the source. The model keeps its number; `None` stands for `NaN`.
- PivotData.GeneratePivotData: requires that every truthy base value of a date-level field is a string (`PivotData.Resolvable`), because `.split` throws on anything else.
- Strings.ToLower: maps ASCII letters only. `toLowerCase` also maps other alphabets.
- ColumnTree.BuildColumnTree: the cursor walk that mutates nested objects in place is modelled as path copying. Aliasing between nodes is not modelled (the source creates none).
- Reconcile.GrandTotalIsDataTotal: assumes row values free of `'|'`. The `"||"` join of row and column keys can collide otherwise (`Reconcile.PivotKeyCollision`).
- Table.TableAligned: assumes column values free of `'|'` and distinct value fields. A value containing `'|'` can split into a different number of header segments, and a repeated value field yields one header leaf but two body cells. It also assumes no column value is the name of an inherited object member (`constructor`, `toString`, `valueOf`, …): the source's header drops such a column while the body keeps its cells.
- Table.TableAligned: covers only the value cells. The row-part cells drawn in front of them (src/components/PivotTable.jsx:157-162) and the row-field headers above them (lines 116-124) are not part of its statement; `Table.PivotRowsUniform` and `Table.ColumnsOnlyRowPart` say how many row-part cells each body row has.
- Headers.HeaderSpans: assumes distinct value fields and column keys with the same number of segments, as the engine produces from `'|'`-free values.

/** The aggregations of the pivot engine (src/utils/pivotData.js, lines
    101-178): sum, avg, count, min and max of a cell's samples, the rounding
    `Number(x.toFixed(2))` applied to fractional results, and the per-column
    totals. Samples are integers; cells and totals are reals. */
module Aggregation {
  import opened Wrappers

  /** The aggregation names the engine knows. */
  const Kinds: set<string> := {"sum", "avg", "count", "min", "max"}

  /** `aggregations[v] || "sum"`: a missing or empty choice means sum. */
  function AggregationOf(aggregations: map<string, string>, v: string): (r: string)
    ensures r != ""
    ensures v in aggregations && aggregations[v] != "" ==> r == aggregations[v]
    ensures (v !in aggregations || aggregations[v] == "") ==> r == "sum"
  {
    if v in aggregations && aggregations[v] != "" then aggregations[v] else "sum"
  }

  /** `nums.reduce((a, b) => a + b, 0)` on integers. */
  function Sum(nums: seq<int>): int
  {
    if nums == [] then 0 else Sum(nums[..|nums| - 1]) + nums[|nums| - 1]
  }

  /** The samples as JavaScript numbers. */
  function Reals(nums: seq<int>): (r: seq<real>)
    ensures |r| == |nums| && forall i :: 0 <= i < |nums| ==> r[i] == nums[i] as real
  {
    seq(|nums|, i requires 0 <= i < |nums| => nums[i] as real)
  }

  /** `Number.isInteger(x)`. */
  predicate IsInteger(x: real)
  {
    x == x.Floor as real
  }

  /** `x.toFixed(2)` read back as a number of hundredths: the nearest whole
      number of hundredths, a tie going away from zero. */
  function Cents(x: real): (n: int)
    ensures -0.5 <= x * 100.0 - n as real <= 0.5
  {
    if x >= 0.0 then (x * 100.0 + 0.5).Floor else -((-x * 100.0 + 0.5).Floor)
  }

  /** `Number(x.toFixed(2))`: within half a hundredth of `x`. */
  function Round2(x: real): (r: real)
    ensures r * 100.0 == Cents(x) as real
    ensures -0.005 <= r - x <= 0.005
  {
    Cents(x) as real / 100.0
  }

  /** Rounding leaves an integer unchanged. */
  lemma Round2Integer(x: real)
    requires IsInteger(x)
    ensures Round2(x) == x
  {
    var k := x.Floor;
    if x >= 0.0 {
      assert x * 100.0 + 0.5 == (k * 100) as real + 0.5;
      assert (x * 100.0 + 0.5).Floor == k * 100;
    } else {
      assert -x * 100.0 + 0.5 == (-k * 100) as real + 0.5;
      assert (-x * 100.0 + 0.5).Floor == -k * 100;
    }
  }

  /** `!Number.isInteger(x) ? Number(x.toFixed(2)) : x`: an integer is kept,
      anything else is rounded to hundredths. */
  function FixIfFractional(x: real): (r: real)
    ensures IsInteger(x) ==> r == x
    ensures -0.005 <= r - x <= 0.005
  {
    if IsInteger(x) then x else Round2(x)
  }

  /** The value of one cell for one value field: its samples aggregated as
      `kind` says; no samples give 0 whatever the kind, and an unknown kind
      gives 0. Integer samples make the rounding of sum a no-op. */
  function Aggregate(kind: string, nums: seq<int>): (r: real)
    ensures nums == [] ==> r == 0.0
    ensures kind !in Kinds ==> r == 0.0
    ensures kind == "sum" ==> r == Sum(nums) as real
    ensures kind == "count" ==> r == |nums| as real
    ensures kind == "min" && nums != [] ==>
      (exists i :: 0 <= i < |nums| && r == nums[i] as real) && forall i :: 0 <= i < |nums| ==> r <= nums[i] as real
    ensures kind == "max" && nums != [] ==>
      (exists i :: 0 <= i < |nums| && r == nums[i] as real) && forall i :: 0 <= i < |nums| ==> nums[i] as real <= r
    ensures kind == "avg" && nums != [] ==> r == FixIfFractional(Sum(nums) as real / |nums| as real)
  {
    match kind
    case "sum" =>
      assert IsInteger(Sum(nums) as real);
      FixIfFractional(Sum(nums) as real)
    case "avg" => if |nums| > 0 then FixIfFractional(Sum(nums) as real / |nums| as real) else 0.0
    case "count" => |nums| as real
    case "min" => if |nums| > 0 then Min(Reals(nums)) else 0.0
    case "max" => if |nums| > 0 then Max(Reals(nums)) else 0.0
    case _ => 0.0
  }

  /** `nums.reduce((a, b) => a + b, 0)` on reals. */
  function SumR(xs: seq<real>): real
  {
    if xs == [] then 0.0 else SumR(xs[..|xs| - 1]) + xs[|xs| - 1]
  }

  /** `Math.min(...xs)` on a non-empty list. */
  function Min(xs: seq<real>): (r: real)
    requires |xs| > 0
    ensures r in xs
    ensures forall i :: 0 <= i < |xs| ==> r <= xs[i]
  {
    if |xs| == 1 then xs[0]
    else
      var m := Min(xs[..|xs| - 1]);
      var last := xs[|xs| - 1];
      assert forall i :: 0 <= i < |xs| - 1 ==> xs[i] == xs[..|xs| - 1][i];
      if last < m then last else m
  }

  /** `Math.max(...xs)` on a non-empty list. */
  function Max(xs: seq<real>): (r: real)
    requires |xs| > 0
    ensures r in xs
    ensures forall i :: 0 <= i < |xs| ==> xs[i] <= r
  {
    if |xs| == 1 then xs[0]
    else
      var m := Max(xs[..|xs| - 1]);
      var last := xs[|xs| - 1];
      assert forall i :: 0 <= i < |xs| - 1 ==> xs[i] == xs[..|xs| - 1][i];
      if last > m then last else m
  }

  /** `xs.filter(x => x != 0)`. */
  function NonZero(xs: seq<real>): (r: seq<real>)
    ensures |r| <= |xs|
    ensures forall x :: x in r <==> x in xs && x != 0.0
  {
    if xs == [] then []
    else
      var rest := NonZero(xs[..|xs| - 1]);
      assert xs == xs[..|xs| - 1] + [xs[|xs| - 1]];
      if xs[|xs| - 1] != 0.0 then rest + [xs[|xs| - 1]] else rest
  }

  /** Dropping zeros does not change a sum. */
  lemma {:induction false} SumNonZero(xs: seq<real>)
    ensures SumR(NonZero(xs)) == SumR(xs)
    decreases |xs|
  {
    if xs != [] {
      var init := xs[..|xs| - 1];
      SumNonZero(init);
      if xs[|xs| - 1] != 0.0 {
        assert (NonZero(init) + [xs[|xs| - 1]])[..|NonZero(init)|] == NonZero(init);
      }
    }
  }

  /** A list of zeros has no non-zero elements. */
  lemma {:induction false} NonZeroOfZeros(xs: seq<real>)
    requires forall i :: 0 <= i < |xs| ==> xs[i] == 0.0
    ensures NonZero(xs) == []
    decreases |xs|
  {
    if xs != [] {
      NonZeroOfZeros(xs[..|xs| - 1]);
    }
  }

  /** A list without non-zero elements sums to 0. */
  lemma AllZeroSum(xs: seq<real>)
    requires NonZero(xs) == []
    ensures SumR(xs) == 0.0
  {
    SumNonZero(xs);
  }

  /** The column total of one value field over the cells `nums` of a column.
      `None` stands for `NaN`. The avg total is the string `toFixed(2)` makes,
      represented by its numeric value. */
  function ColumnTotal(kind: string, nums: seq<real>): (r: Option<real>)
    ensures kind !in Kinds ==> r == Some(0.0)
    ensures kind == "sum" ==> r == Some(FixIfFractional(SumR(nums)))
    ensures kind == "count" ==> r == Some(SumR(nums))
    ensures kind == "avg" && nums != [] && NonZero(nums) != [] ==>
      r == Some(Round2(SumR(nums) / |NonZero(nums)| as real))
    ensures kind == "avg" ==> (r.None? <==> nums != [] && NonZero(nums) == [])
    ensures kind == "min" && NonZero(nums) == [] ==> r == Some(0.0)
    ensures kind == "min" && NonZero(nums) != [] ==>
      r.Some? && r.value in nums && r.value != 0.0 &&
      forall i :: 0 <= i < |nums| && nums[i] != 0.0 ==> r.value <= nums[i]
    ensures kind == "max" && nums != [] ==>
      r.Some? && r.value in nums && forall i :: 0 <= i < |nums| ==> nums[i] <= r.value
    ensures nums == [] ==> r == Some(0.0)
  {
    match kind
    case "sum" => Some(FixIfFractional(SumR(nums)))
    case "avg" =>
      if |nums| == 0 then Some(0.0)
      else if |NonZero(nums)| == 0 then None
      else Some(Round2(SumR(nums) / |NonZero(nums)| as real))
    case "count" => Some(SumR(nums))
    case "min" =>
      if |NonZero(nums)| > 0 then
        var m := Min(NonZero(nums));
        assert forall i :: 0 <= i < |nums| && nums[i] != 0.0 ==> nums[i] in NonZero(nums);
        Some(m)
      else Some(0.0)
    case "max" => if |nums| > 0 then Some(Max(nums)) else Some(0.0)
    case _ => Some(0.0)
  }

  /** The avg column total of a column holding 10, 0 and 20 is 15: the zero
      cell is left out of the divisor. */
  lemma AvgSkipsZeroCells()
    ensures ColumnTotal("avg", [10.0, 0.0, 20.0]) == Some(15.0)
  {
    var xs := [10.0, 0.0, 20.0];
    assert xs[..2] == [10.0, 0.0] && xs[..2][..1] == [10.0] && [10.0][..0] == [];
    assert SumR([10.0]) == 10.0;
    assert SumR([10.0, 0.0]) == 10.0;
    assert NonZero(xs) == [10.0, 20.0];
    assert SumR(xs) == 30.0;
    Round2Integer(15.0);
  }
}
